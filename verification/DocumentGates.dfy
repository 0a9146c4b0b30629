/** When each call goes through, in terms of what is stored. */
module DocumentGates {
  import opened Wrappers
  import opened DocumentTypes
  import opened DocumentContent
  import opened DocumentEngine
  import opened DocumentProject

  /** Nothing has moved since the document was written: no document it is built on, and no
      upstream version it was written against, nor was the baseline withdrawn. */
  ghost predicate IsCurrent(t: DocType, record: Record, authority: Authority) {
    && record.outdatedBy == []
    && (Baseline in UpstreamOf(t) && record.against.baseline.Some? ==>
          record.against.baseline == authority.current.baseline)
    && (Stack in UpstreamOf(t) && record.against.stack.Some? ==>
          record.against.stack == authority.current.stack)
    && (Estimate in UpstreamOf(t) && record.against.estimate.Some? ==>
          record.against.estimate == authority.current.estimate)
    && (record.against.baseline.Some? ==> authority.baselineCurrent)
  }

  lemma CurrentIff(t: DocType, record: Record, authority: Authority)
    ensures IsCurrent(t, record, authority) <==> !IsOutdated(t, record, authority)
  {
  }

  /** Everything in the content has been decided by somebody. */
  ghost predicate AllDecided(t: DocType, content: Content) {
    && (forall i :: 0 <= i < |content.sections| ==> content.sections[i].proposedBody == "")
    && (forall i :: 0 <= i < |content.features| ==> content.features[i].proposed == None)
    && (forall i :: 0 <= i < |content.rows| ==> content.rows[i].proposed == None)
    && (t == Assumptions ==>
          forall i :: 0 <= i < |content.rows| ==> StateOf(content.rows[i].payload) != Some(DraftAssumption))
  }

  /** A document can be approved exactly when it is a draft or under revision, is current,
      and was validated as it stands without a blocking finding, with everything in it
      decided and every document it is built on still signed. */
  lemma ApprovalIff(doc: Doc, t: DocType, expected: nat, blocked: bool, env: Env, gate: Gate)
    ensures Approve(doc, t, expected, blocked, env, gate).Ok? <==>
      && doc.record.recordVersion == expected && doc.record.status in {Draft, NeedsRevision}
      && IsCurrent(t, doc.record, env.authority) && !blocked && gate.prerequisitesSigned
      && doc.record.validation.Some? && doc.record.validation.value.documentVersion == doc.record.version
      && (forall i :: 0 <= i < |doc.record.validation.value.findings| ==>
            doc.record.validation.value.findings[i].severity != Blocking)
      && AllDecided(t, Current(doc))
  {
    CurrentIff(t, doc.record, env.authority);
    DecidedIff(t, Current(doc));
  }

  lemma DecidedIff(t: DocType, content: Content)
    ensures AllDecided(t, content) <==> !HasUndecided(content) && !HasUnconfirmed(t, content)
  {
  }

  /** It can be issued exactly when it is approved and still current. */
  lemma IssueIff(doc: Doc, t: DocType, expected: nat, env: Env)
    ensures MarkFinal(doc, t, expected, env).Ok? <==>
      doc.record.recordVersion == expected && doc.record.status == Approved && IsCurrent(t, doc.record, env.authority)
  {
    CurrentIff(t, doc.record, env.authority);
  }

  /** It can be generated again exactly while unlocked and not issued, running or stored by
      somebody else since; reopened when signed; restored when open for editing. */
  lemma RewritesIff(doc: Doc, t: DocType, expected: nat, composed: ComposedContent, from: nat, env: Env, gate: Gate)
    ensures Generate(doc, t, expected, composed, env, gate).Ok? <==>
      && gate.unlocked && doc.record.recordVersion == expected
      && doc.record.status in {NotStarted, Draft, NeedsRevision, Approved, Failed}
    ensures Reopen(doc, t, expected, env).Ok? <==>
      doc.record.recordVersion == expected && doc.record.status in {Approved, Final}
    ensures Restore(doc, t, expected, from, env, gate).Ok? <==>
      && gate.unlocked && doc.record.recordVersion == expected && from in doc.archive
      && doc.record.status in {Draft, NeedsRevision, Approved}
  {
  }

  /** A document of the project is unlocked exactly when what it is computed from exists,
      and every document it is built on is signed and current. */
  lemma UnlockedIff(p: Project, t: DocType, authority: Authority)
    ensures GateFor(p, t, authority).unlocked <==>
      && (Baseline in UpstreamOf(t) ==> authority.current.baseline.Some?)
      && (Stack in UpstreamOf(t) ==> authority.current.stack.Some?)
      && (Estimate in UpstreamOf(t) ==> authority.current.estimate.Some?)
      && forall q :: q in Prerequisites(t) ==>
           q in p && p[q].record.status in {Approved, Final} && IsCurrent(q, p[q].record, authority)
    ensures GateFor(p, t, authority).prerequisitesSigned <==>
      forall q :: q in Prerequisites(t) && q in p ==>
        p[q].record.status in {Approved, Final} && IsCurrent(q, p[q].record, authority)
  {
    forall q | q in p ensures IsCurrent(q, p[q].record, authority) <==> !IsOutdated(q, p[q].record, authority) {
      CurrentIff(q, p[q].record, authority);
    }
  }
}
