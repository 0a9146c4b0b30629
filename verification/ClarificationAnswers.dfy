/** The answers to one clarification: an append-only record, under any interleaving of the
    calls that write it. */
module ClarificationAnswers {
  import opened Wrappers

  datatype AnswerStatus = CurrentAnswer | SupersededBy(version: nat)

  datatype AnswerRecord = AnswerRecord(
    version: nat, text: string, isAssumption: bool, status: AnswerStatus,
    confirmed: bool, integrated: bool, affectedItemIds: seq<string>)

  datatype Stage = Unanswered | Answered | Integrating | Integrated | NeedsReview | IntegrationFailed | Dismissed

  datatype Clarification = Clarification(stage: Stage, answers: seq<AnswerRecord>, version: nat)

  function Superseded(answers: seq<AnswerRecord>, successor: nat): seq<AnswerRecord> {
    seq(|answers|, i requires 0 <= i < |answers| =>
      if answers[i].status == CurrentAnswer then answers[i].(status := SupersededBy(successor)) else answers[i])
  }

  function WithAnswer(answers: seq<AnswerRecord>, text: string, isAssumption: bool): seq<AnswerRecord> {
    var next := |answers| + 1;
    Superseded(answers, next) + [AnswerRecord(next, text, isAssumption, CurrentAnswer, false, false, [])]
  }

  /** The first current answer, as the service looks it up. */
  function FindCurrent(answers: seq<AnswerRecord>): Option<AnswerRecord> {
    if answers == [] then None
    else if answers[0].status == CurrentAnswer then Some(answers[0])
    else FindCurrent(answers[1..])
  }

  function Confirmed(answers: seq<AnswerRecord>, version: nat): seq<AnswerRecord> {
    seq(|answers|, i requires 0 <= i < |answers| =>
      if answers[i].version == version then answers[i].(confirmed := true) else answers[i])
  }

  function Landed(answers: seq<AnswerRecord>, version: nat, affected: seq<string>,
                  integrated: bool): seq<AnswerRecord> {
    seq(|answers|, i requires 0 <= i < |answers| =>
      if answers[i].version == version
      then answers[i].(affectedItemIds := affected, integrated := answers[i].integrated || integrated)
      else answers[i])
  }

  /** The conditional write. */
  function Write(stored: Clarification, expected: nat, stage: Stage, answers: seq<AnswerRecord>): Clarification {
    if stored.version == expected then Clarification(stage, answers, expected + 1) else stored
  }

  /** Every call that writes a clarification, with what it read before writing. */
  datatype Event =
    | Answer(read: Clarification, expected: nat, text: string, isAssumption: bool)
    | Confirm(read: Clarification, expected: nat)
    /** The second write of a confirmation, from the clarification as it was read again. */
    | RecordOutcome(read: Clarification, answerVersion: nat, stage: Stage, affected: seq<string>)
    /** The last proposal was decided, or an assumption was recorded. */
    | Settle(read: Clarification)
    | Dismiss(read: Clarification, expected: nat)

  function MayConfirm(read: Clarification): Option<AnswerRecord> {
    match FindCurrent(read.answers)
    case None => None
    case Some(answer) => if read.stage == Integrated && answer.confirmed then None else Some(answer)
  }

  function Next(stored: Clarification, event: Event): Clarification {
    match event
    case Answer(read, expected, text, isAssumption) =>
      Write(stored, expected, Answered, WithAnswer(read.answers, text, isAssumption))
    case Confirm(read, expected) =>
      (match MayConfirm(read)
       case None => stored
       case Some(answer) => Write(stored, expected, Integrating, Confirmed(read.answers, answer.version)))
    case RecordOutcome(read, answerVersion, stage, affected) =>
      Write(stored, read.version, stage,
          Landed(read.answers, answerVersion, affected, stage in {Integrated, NeedsReview}))
    case Settle(read) => Write(stored, read.version, Integrated, stored.answers)
    case Dismiss(_, expected) => Write(stored, expected, Dismissed, stored.answers)
  }

  function Run(stored: Clarification, events: seq<Event>): Clarification
    decreases |events|
  {
    if events == [] then stored else Run(Next(stored, events[0]), events[1..])
  }

  /* --------------------------------------------------------------- the record */

  /** Answer i has version i + 1; the last one is current, and each earlier one names the
      answer that replaced it. */
  ghost predicate WellKept(answers: seq<AnswerRecord>) {
    forall i :: 0 <= i < |answers| ==>
      && answers[i].version == i + 1
      && answers[i].status == if i == |answers| - 1 then CurrentAnswer else SupersededBy(i + 2)
  }

  /** Nothing that was said is changed or lost. */
  ghost predicate Keeps(earlier: seq<AnswerRecord>, later: seq<AnswerRecord>) {
    && |earlier| <= |later|
    && forall i :: 0 <= i < |earlier| ==>
         && later[i].version == earlier[i].version && later[i].text == earlier[i].text
         && later[i].isAssumption == earlier[i].isAssumption
         && (earlier[i].confirmed ==> later[i].confirmed)
  }

  /** What a call read at an earlier moment. */
  ghost predicate ReadEarlier(read: Clarification, stored: Clarification) {
    && read.version <= stored.version && Keeps(read.answers, stored.answers)
    && (read.version == stored.version ==> read == stored)
  }

  /** The caller's version is the one the service read. */
  predicate AsRead(event: Event) {
    match event
    case Answer(read, expected, _, _) => expected == read.version
    case Confirm(read, expected) => expected == read.version
    case _ => true
  }

  lemma {:induction false} CurrentIsLast(answers: seq<AnswerRecord>, from: nat)
    requires WellKept(answers) && from < |answers|
    ensures FindCurrent(answers[from..]) == Some(answers[|answers| - 1])
    decreases |answers| - from
  {
    if from < |answers| - 1 {
      assert answers[from..][1..] == answers[from + 1..];
      CurrentIsLast(answers, from + 1);
    }
  }

  lemma NextKeeps(stored: Clarification, event: Event)
    requires WellKept(stored.answers) && ReadEarlier(event.read, stored) && AsRead(event)
    ensures WellKept(Next(stored, event).answers) && ReadEarlier(stored, Next(stored, event))
  {
    var after := Next(stored, event);
    match event
    case Answer(read, expected, text, isAssumption) =>
      if stored.version == expected { AnswerAppends(read.answers, text, isAssumption); }
    case Confirm(read, expected) =>
    case _ =>
  }

  lemma AnswerAppends(answers: seq<AnswerRecord>, text: string, isAssumption: bool)
    requires WellKept(answers)
    ensures WellKept(WithAnswer(answers, text, isAssumption)) && Keeps(answers, WithAnswer(answers, text, isAssumption))
    ensures |WithAnswer(answers, text, isAssumption)| == |answers| + 1
    ensures WithAnswer(answers, text, isAssumption)[|answers|].text == text
  {
  }

  ghost predicate FairRun(stored: Clarification, events: seq<Event>)
    decreases |events|
  {
    events != [] ==>
      && ReadEarlier(events[0].read, stored) && AsRead(events[0])
      && FairRun(Next(stored, events[0]), events[1..])
  }

  /** Over every interleaving of answers, confirmations, outcomes and dismissals whose
      callers bring the version that was read: the record stays well kept, and everything
      ever said is still there, word for word and in place. */
  lemma {:induction false} AnswersAreAppendOnly(stored: Clarification, events: seq<Event>)
    requires WellKept(stored.answers) && FairRun(stored, events)
    ensures WellKept(Run(stored, events).answers) && Keeps(stored.answers, Run(stored, events).answers)
    ensures stored.version <= Run(stored, events).version
    decreases |events|
  {
    if events != [] {
      NextKeeps(stored, events[0]);
      AnswersAreAppendOnly(Next(stored, events[0]), events[1..]);
    }
  }

  /** A reading taken at any moment of such a run is a fair one at every later moment. */
  lemma {:induction false} ReadingsStayFair(stored: Clarification, events: seq<Event>, k: nat)
    requires WellKept(stored.answers) && FairRun(stored, events) && k <= |events|
    ensures ReadEarlier(Run(stored, events[..k]), Run(stored, events))
    decreases |events|
  {
    if k == 0 {
      assert events[..0] == [];
      LaterByRun(stored, events);
    } else {
      NextKeeps(stored, events[0]);
      assert events[..k][0] == events[0] && events[..k][1..] == events[1..][..k - 1];
      ReadingsStayFair(Next(stored, events[0]), events[1..], k - 1);
    }
  }

  lemma {:induction false} LaterByRun(stored: Clarification, events: seq<Event>)
    requires WellKept(stored.answers) && FairRun(stored, events)
    ensures ReadEarlier(stored, Run(stored, events))
    decreases |events|
  {
    if events != [] {
      NextKeeps(stored, events[0]);
      LaterByRun(Next(stored, events[0]), events[1..]);
    }
  }

  /** Confirming confirms the last answer given, and no other. */
  lemma ConfirmsTheLast(stored: Clarification)
    requires WellKept(stored.answers) && stored.answers != []
    ensures MayConfirm(stored).Some? ==> MayConfirm(stored).value == stored.answers[|stored.answers| - 1]
    ensures MayConfirm(stored).None? <==> stored.stage == Integrated && stored.answers[|stored.answers| - 1].confirmed
  {
    CurrentIsLast(stored.answers, 0);
    assert stored.answers[0..] == stored.answers;
  }

  /** A confirmation that lands marks the last answer as confirmed and changes nothing else
      that was ever said; one that does not land changes nothing at all. */
  lemma ConfirmationMarksTheLast(stored: Clarification, read: Clarification, expected: nat)
    requires WellKept(stored.answers) && ReadEarlier(read, stored) && expected == read.version
    ensures var after, last := Next(stored, Confirm(read, expected)), |stored.answers| - 1;
      if stored.version != read.version || stored.answers == []
         || (stored.stage == Integrated && stored.answers[last].confirmed)
      then after == stored
      else
        && after.stage == Integrating && after.version == stored.version + 1
        && |after.answers| == |stored.answers| && after.answers[..last] == stored.answers[..last]
        && after.answers[last] == stored.answers[last].(confirmed := true)
  {
    if stored.version == read.version && stored.answers != [] {
      ConfirmsTheLast(stored);
      var after, last := Confirmed(stored.answers, |stored.answers|), |stored.answers| - 1;
      assert forall i :: 0 <= i < last ==> after[i] == stored.answers[i];
    }
  }

  /** The outcome of an integration is written into the answer that was integrated, and
      into no other. */
  lemma OutcomeMarksItsAnswer(stored: Clarification, read: Clarification, n: nat, stage: Stage, affected: seq<string>)
    requires WellKept(stored.answers) && ReadEarlier(read, stored) && 1 <= n <= |read.answers|
    ensures var after := Next(stored, RecordOutcome(read, n, stage, affected));
      if stored.version != read.version then after == stored
      else
        && after.stage == stage && after.version == stored.version + 1 && |after.answers| == |stored.answers|
        && (forall i :: 0 <= i < |stored.answers| && i != n - 1 ==> after.answers[i] == stored.answers[i])
        && after.answers[n - 1] == stored.answers[n - 1].(
             affectedItemIds := affected,
             integrated := stored.answers[n - 1].integrated || stage in {Integrated, NeedsReview})
  {
  }

  /** Why the version must be the one that was read. The service answers from what it read
      but lets the caller name the version: a caller who names a version that comes to be
      stored in between writes over what was answered or confirmed since, exactly when
      something was. */
  lemma AnswerLosesIff(stored: Clarification, read: Clarification, text: string, isAssumption: bool)
    requires WellKept(stored.answers) && WellKept(read.answers) && ReadEarlier(read, stored)
    ensures var after := Next(stored, Answer(read, stored.version, text, isAssumption));
      after.version == stored.version + 1
      && (Keeps(stored.answers, after.answers) && |after.answers| == |stored.answers| + 1
          <==> |read.answers| == |stored.answers|
               && forall i :: 0 <= i < |read.answers| && stored.answers[i].confirmed ==> read.answers[i].confirmed)
  {
    var after := Next(stored, Answer(read, stored.version, text, isAssumption));
    AnswerAppends(read.answers, text, isAssumption);
    assert forall i :: 0 <= i < |read.answers| ==> after.answers[i].confirmed == read.answers[i].confirmed;
  }

  /* ----------------------------------------------------------- as stored */

  /** The collection of clarifications and the two calls that write answers. */
  class ClarificationDesk {
    var clarifications: map<string, Clarification>

    constructor ()
      ensures clarifications == map[]
    {
      clarifications := map[];
    }

    method UpdateClarification(id: string, expected: nat, stage: Stage, answers: seq<AnswerRecord>)
        returns (updated: bool)
      requires id in clarifications
      modifies this
      ensures updated <==> old(clarifications)[id].version == expected
      ensures clarifications == old(clarifications)[id := Write(old(clarifications)[id], expected, stage, answers)]
    {
      updated := clarifications[id].version == expected;
      if updated { clarifications := clarifications[id := Clarification(stage, answers, expected + 1)]; }
    }

    method AnswerClarification(id: string, expected: nat, text: string, isAssumption: bool) returns (updated: bool)
      requires id in clarifications
      modifies this
      ensures clarifications
           == old(clarifications)[id :=
               Next(old(clarifications)[id], Answer(old(clarifications)[id], expected, text, isAssumption))]
      ensures updated <==> expected == old(clarifications)[id].version
    {
      var clarification := clarifications[id];
      var answers := clarification.answers;
      var next := |answers| + 1;
      var appended :=
        Superseded(answers, next) + [AnswerRecord(next, text, isAssumption, CurrentAnswer, false, false, [])];
      updated := UpdateClarification(id, expected, Answered, appended);
    }

    method ConfirmClarification(id: string, expected: nat) returns (updated: bool)
      requires id in clarifications
      modifies this
      ensures clarifications == old(clarifications)[id :=
              Next(old(clarifications)[id], Confirm(old(clarifications)[id], expected))]
      ensures updated <==> MayConfirm(old(clarifications)[id]).Some? && expected == old(clarifications)[id].version
    {
      var clarification := clarifications[id];
      var current := FindCurrent(clarification.answers);
      if current.None? || (clarification.stage == Integrated && current.value.confirmed) { return false; }
      updated := UpdateClarification(id, expected, Integrating,
          Confirmed(clarification.answers, current.value.version));
    }
  }
}
