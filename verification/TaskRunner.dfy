/** One task put to a model: attempts, repairs, and the bound on how often it is asked. */
module TaskRunner {
  import opened Wrappers

  datatype Failure =
    | ProviderUnavailable | ModelLoading | Timeout | PartialResponse | HallucinatedReference | RepairExhausted
    | InvalidOutput(code: string) | OtherFailure(code: string) | Cancelled

  predicate IsRetryable(reason: Failure) { reason in {ProviderUnavailable, ModelLoading, Timeout} }

  const MAX_REPAIRS := 2

  /** What one call to the provider comes to, once its output has been checked. */
  datatype Turn<T> = Valid(value: T) | Truncated | Rejected(reason: Failure) | Threw(reason: Failure)

  /** The provider's answers and the cancellation flag, whatever they turn out to be: the
      k-th entry is what the k-th turn would find. */
  datatype World<!T> = World(turns: nat -> Turn<T>, cancelled: nat -> bool)

  datatype Ended<T> = Ended(result: Result<T, Failure>, calls: nat)

  /** What happens from a turn on. A repair gives its attempt back. */
  function RunFrom<T>(world: World<T>, maxAttempts: nat, attempt: nat, repairs: nat, calls: nat,
                      last: Failure): Ended<T>
    requires attempt <= maxAttempts && repairs <= MAX_REPAIRS
    decreases MAX_REPAIRS - repairs, maxAttempts - attempt
  {
    if attempt == maxAttempts then Ended(Refused(last), calls)
    else if world.cancelled(calls) then Ended(Refused(Cancelled), calls)
    else
      match world.turns(calls)
      case Valid(value) => Ended(Ok(value), calls + 1)
      case Truncated => Ended(Refused(PartialResponse), calls + 1)
      case Rejected(reason) =>
        if reason == HallucinatedReference then Ended(Refused(reason), calls + 1)
        else if repairs == MAX_REPAIRS then Ended(Refused(RepairExhausted), calls + 1)
        else RunFrom(world, maxAttempts, attempt, repairs + 1, calls + 1, reason)
      case Threw(reason) =>
        if !IsRetryable(reason) || attempt + 1 == maxAttempts then Ended(Refused(reason), calls + 1)
        else RunFrom(world, maxAttempts, attempt + 1, repairs, calls + 1, reason)
  }

  /** A turn after which the model is asked again. */
  predicate GoesOn<T>(turn: Turn<T>) {
    (turn.Rejected? && turn.reason != HallucinatedReference) || (turn.Threw? && IsRetryable(turn.reason))
  }

  /** The loop: it ends whatever the provider does. */
  method Run<T>(world: World<T>, maxAttempts: nat) returns (result: Result<T, Failure>, calls: nat)
    ensures Ended(result, calls) == RunFrom(world, maxAttempts, 0, 0, 0, ProviderUnavailable)
    ensures maxAttempts > 0 ==> calls <= maxAttempts + MAX_REPAIRS
    ensures result.Ok? ==> calls > 0 && world.turns(calls - 1) == Valid(result.value)
    ensures forall k :: 0 <= k < calls - 1 ==> GoesOn(world.turns(k)) && !world.cancelled(k)
  {
    var attempt, repairs, last := 0, 0, ProviderUnavailable;
    calls := 0;
    while attempt < maxAttempts
      invariant attempt <= maxAttempts && repairs <= MAX_REPAIRS && calls == attempt + repairs
      invariant maxAttempts > 0 ==> attempt < maxAttempts
      invariant RunFrom(world, maxAttempts, attempt, repairs, calls, last)
             == RunFrom(world, maxAttempts, 0, 0, 0, ProviderUnavailable)
      invariant forall k :: 0 <= k < calls ==> GoesOn(world.turns(k)) && !world.cancelled(k)
      decreases MAX_REPAIRS - repairs, maxAttempts - attempt
    {
      attempt := attempt + 1;
      if world.cancelled(calls) { return Refused(Cancelled), calls; }
      var turn := world.turns(calls);
      calls := calls + 1;
      match turn {
        case Truncated => return Refused(PartialResponse), calls;
        case Valid(value) => return Ok(value), calls;
        case Rejected(reason) =>
          last := reason;
          if reason == HallucinatedReference { return Refused(reason), calls; }
          if repairs >= MAX_REPAIRS { return Refused(RepairExhausted), calls; }
          repairs := repairs + 1;
          attempt := attempt - 1;
        case Threw(reason) =>
          last := reason;
          if !IsRetryable(reason) || attempt >= maxAttempts { return Refused(reason), calls; }
      }
    }
    /* Only reached when no attempt is allowed at all. */
    assert maxAttempts == 0;
    return Refused(last), calls;
  }

  /** A provider that first fails in ways worth a retry, then answers wrongly every time. */
  function Stubborn(retries: nat): World<string> {
    World(k => if k < retries then Threw(Timeout) else Rejected(InvalidOutput("schema")), k => false)
  }

  lemma {:induction false} StubbornRun(retries: nat, attempt: nat)
    requires attempt <= retries
    ensures RunFrom(Stubborn(retries), retries + 1, attempt, 0, attempt, Timeout)
         == Ended(Refused(RepairExhausted), retries + 1 + MAX_REPAIRS)
    decreases retries - attempt
  {
    var world := Stubborn(retries);
    if attempt < retries {
      StubbornRun(retries, attempt + 1);
    } else {
      assert RunFrom(world, retries + 1, attempt, 2, attempt + 2, InvalidOutput("schema"))
          == Ended(Refused(RepairExhausted), attempt + 3);
      assert RunFrom(world, retries + 1, attempt, 1, attempt + 1, InvalidOutput("schema"))
          == RunFrom(world, retries + 1, attempt, 2, attempt + 2, InvalidOutput("schema"));
    }
  }

  lemma LastMatters<T>(world: World<T>, maxAttempts: nat, attempt: nat, repairs: nat, calls: nat, a: Failure,
                       b: Failure)
    requires attempt < maxAttempts && repairs <= MAX_REPAIRS
    ensures RunFrom(world, maxAttempts, attempt, repairs, calls, a)
            == RunFrom(world, maxAttempts, attempt, repairs, calls, b)
  {
  }

  /** The bound on provider calls is tight: for every number of attempts there is a provider
      that uses all of them and every repair. */
  lemma BoundIsTight(maxAttempts: nat)
    requires maxAttempts > 0
    ensures RunFrom(Stubborn(maxAttempts - 1), maxAttempts, 0, 0, 0, ProviderUnavailable).calls
            == maxAttempts + MAX_REPAIRS
  {
    StubbornRun(maxAttempts - 1, 0);
    LastMatters(Stubborn(maxAttempts - 1), maxAttempts, 0, 0, 0, ProviderUnavailable, Timeout);
  }

  /** How many of the first turns were answers sent back for repair. */
  ghost function Repairs<T>(world: World<T>, upTo: nat): nat {
    if upTo == 0 then 0 else Repairs(world, upTo - 1) + if world.turns(upTo - 1).Rejected? then 1 else 0
  }

  /** Why a run that was not cancelled gave up, in terms of its turns alone: its last turn
      was unusable, or it was the third answer sent back, or the last attempt allowed. */
  lemma {:induction false} GivesUpOnlyWhenSpent<T>(world: World<T>, maxAttempts: nat, attempt: nat, repairs: nat,
                                                   calls: nat, last: Failure)
    requires attempt < maxAttempts && repairs <= MAX_REPAIRS && repairs == Repairs(world, calls)
             && calls == attempt + repairs
    requires RunFrom(world, maxAttempts, attempt, repairs, calls, last).result.Refused?
    requires RunFrom(world, maxAttempts, attempt, repairs, calls, last).result.error != Cancelled
    ensures var ended := RunFrom(world, maxAttempts, attempt, repairs, calls, last);
      ended.calls > 0 &&
      (!GoesOn(world.turns(ended.calls - 1))
       || (world.turns(ended.calls - 1).Rejected? && Repairs(world, ended.calls) == MAX_REPAIRS + 1)
       || (world.turns(ended.calls - 1).Threw? && ended.calls - Repairs(world, ended.calls) == maxAttempts))
    decreases MAX_REPAIRS - repairs, maxAttempts - attempt
  {
    if !world.cancelled(calls) {
      match world.turns(calls)
      case Rejected(reason) =>
        if reason != HallucinatedReference && repairs < MAX_REPAIRS {
          GivesUpOnlyWhenSpent(world, maxAttempts, attempt, repairs + 1, calls + 1, reason);
        }
      case Threw(reason) =>
        if IsRetryable(reason) && attempt + 1 < maxAttempts {
          GivesUpOnlyWhenSpent(world, maxAttempts, attempt + 1, repairs, calls + 1, reason);
        }
      case _ =>
    }
  }
}
