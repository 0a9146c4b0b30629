/** What a caller is told, and when a refused one may come back. */
module RateLimitRetry {
  import opened Wrappers
  import opened OrderedMap
  import opened RateLimitSpec
  import opened RateLimitProofs
  import opened RateLimitBound

  /** So many milliseconds in whole seconds, rounded up, and never none. */
  ghost predicate RoundedUp(seconds: nat, ms: int) {
    seconds >= 1 && ms <= seconds * 1000 && (seconds > 1 ==> (seconds - 1) * 1000 < ms)
  }

  /** The answer to a request, in terms of the window it was counted in. */
  ghost predicate Tells(decision: Decision, counted: Window, policy: Policy, now: int) {
    && decision.limit == policy.limit
    && (decision.allowed <==> counted.count <= policy.limit)
    && (decision.allowed ==> decision.remaining + counted.count == policy.limit)
    && (!decision.allowed ==> decision.remaining == 0)
    && RoundedUp(decision.retryAfterSeconds, counted.expiresAt - now)
  }

  /** A request is counted in its key's open window, one more than before, or opens one of
      its policy's length; the first whenever there is an open window and room in the
      store. The answer says how the count stands and how long that window still lasts. */
  lemma DecisionTells(windows: Windows, maxKeys: nat, call: Call)
    requires WellFormed(windows)
    ensures var (after, decision) := Consume(windows, maxKeys, call);
      var was, now := Get(windows, call.key), Get(after, call.key);
      var open := was.Some? && was.value.expiresAt > call.now;
      && now.Some? && Tells(decision, now.value, call.policy, call.now)
      && (now.value == Window(call.now + call.policy.windowSeconds * 1000, 1)
          || (open && now.value == Window(was.value.expiresAt, was.value.count + 1)))
      && (open && |OnlyLive(windows, call.now)| < maxKeys ==>
            now.value == Window(was.value.expiresAt, was.value.count + 1))
  {
    var kept := Evict(windows, maxKeys, call.now);
    var window := Counted(Get(kept, call.key), call.policy, call.now);
    EvictShape(windows, maxKeys, call.now, call.key);
    GetOfPut(kept, call.key, window, call.key);
    if |OnlyLive(windows, call.now)| < maxKeys {
      EvictionForgetsNothingIff(windows, maxKeys, call.now);
      assert Live(Get(kept, call.key), call.now) == Live(Get(windows, call.key), call.now);
    }
  }

  function RunStore(windows: Windows, maxKeys: nat, calls: seq<Call>): Windows
    decreases |calls|
  {
    if calls == [] then windows else RunStore(Consume(windows, maxKeys, calls[0]).0, maxKeys, calls[1..])
  }

  /** The key has no window open at `now` that ends after `until`. */
  ghost predicate EndsBy(windows: Windows, key: Key, now: int, until: int) {
    Live(Get(windows, key), now).Some? ==> Get(windows, key).value.expiresAt <= until
  }

  lemma {:induction false} OthersExtendNothing(windows: Windows, maxKeys: nat, others: seq<Call>, key: Key, now: int,
                                               until: int, later: int)
    requires WellFormed(windows) && Ordered(others, now) && EndsBy(windows, key, now, until)
    requires forall i :: 0 <= i < |others| ==> others[i].key != key
    requires now <= later && (others != [] ==> others[|others| - 1].now <= later)
    ensures WellFormed(RunStore(windows, maxKeys, others))
    ensures EndsBy(RunStore(windows, maxKeys, others), key, later, until)
    decreases |others|
  {
    if others != [] {
      var call, rest := others[0], others[1..];
      var kept := Evict(windows, maxKeys, call.now);
      EvictShape(windows, maxKeys, call.now, key);
      ConsumeKeepsWellFormed(windows, maxKeys, call);
      GetOfPut(kept, call.key, Counted(Get(kept, call.key), call.policy, call.now), key);
      OrderedPairs(others, now);
      OthersExtendNothing(Consume(windows, maxKeys, call).0, maxKeys, rest, key, call.now, until, later);
    }
  }

  /** The wait a refused caller is told is enough: whatever other keys do meanwhile, and
      whatever is evicted, its next request at or after that time is allowed. */
  lemma {:induction false} RetryAfterIsEnough(windows: Windows, maxKeys: nat, call: Call, others: seq<Call>,
                                              again: Call)
    requires WellFormed(windows) && !Consume(windows, maxKeys, call).1.allowed
    requires Ordered(others + [again], call.now) && forall i :: 0 <= i < |others| ==> others[i].key != call.key
    requires again.key == call.key && again.policy.Valid()
    requires again.now >= call.now + Consume(windows, maxKeys, call).1.retryAfterSeconds * 1000
    ensures Consume(RunStore(Consume(windows, maxKeys, call).0, maxKeys, others), maxKeys, again).1.allowed
  {
    var next := Consume(windows, maxKeys, call).0;
    var until := call.now + Consume(windows, maxKeys, call).1.retryAfterSeconds * 1000;
    DecisionTells(windows, maxKeys, call);
    ConsumeKeepsWellFormed(windows, maxKeys, call);
    OrderedInit(others, again, call.now);
    OthersExtendNothing(next, maxKeys, others, call.key, call.now, until, again.now);
    var last := RunStore(next, maxKeys, others);
    EvictShape(last, maxKeys, again.now, again.key);
  }

  lemma {:induction false} OrderedInit(calls: seq<Call>, last: Call, since: int)
    requires Ordered(calls + [last], since)
    ensures Ordered(calls, since) && since <= last.now && (calls != [] ==> calls[|calls| - 1].now <= last.now)
    decreases |calls|
  {
    if calls != [] {
      assert (calls + [last])[1..] == calls[1..] + [last];
      OrderedInit(calls[1..], last, calls[0].now);
    }
  }

  lemma {:induction false} KeptThrough(windows: Windows, maxKeys: nat, others: seq<Call>, again: Call, w: Window)
    requires WellFormed(windows) && Get(windows, again.key) == Some(w) && w.expiresAt > again.now
    requires Ordered(others + [again], if others == [] then again.now else others[0].now)
    requires forall i :: 0 <= i < |others| ==> others[i].key != again.key
    requires KeepsWindow(windows, maxKeys, others + [again], again.key)
    ensures Live(Get(Evict(RunStore(windows, maxKeys, others), maxKeys, again.now), again.key), again.now) == Some(w)
    decreases |others|
  {
    if others == [] {
      assert others + [again] == [again];
    } else {
      var call, rest := others[0], others[1..];
      assert (others + [again])[1..] == rest + [again];
      OrderedInit(others, again, call.now);
      OrderedPairs(others, call.now);
      OwnWindowAfter(windows, maxKeys, call, again.key);
      KeptThrough(Consume(windows, maxKeys, call).0, maxKeys, rest, again, w);
    }
  }

  /** And it is needed, to the second: a caller whose window no request evicts is refused
      again a second short of it, and at any time before. */
  lemma {:induction false} RetryAfterIsNeeded(windows: Windows, maxKeys: nat, call: Call, others: seq<Call>,
                                              again: Call)
    requires WellFormed(windows) && !Consume(windows, maxKeys, call).1.allowed
    requires Ordered(others + [again], call.now) && forall i :: 0 <= i < |others| ==> others[i].key != call.key
    requires again.key == call.key && again.policy == call.policy
    requires KeepsWindow(Consume(windows, maxKeys, call).0, maxKeys, others + [again], call.key)
    requires Consume(windows, maxKeys, call).1.retryAfterSeconds > 1
    requires again.now <= call.now + (Consume(windows, maxKeys, call).1.retryAfterSeconds - 1) * 1000
    ensures !Consume(RunStore(Consume(windows, maxKeys, call).0, maxKeys, others), maxKeys, again).1.allowed
  {
    var next := Consume(windows, maxKeys, call).0;
    DecisionTells(windows, maxKeys, call);
    ConsumeKeepsWellFormed(windows, maxKeys, call);
    if others != [] { assert (others + [again])[0] == others[0]; }
    KeptThrough(next, maxKeys, others, again, Get(next, call.key).value);
  }
}
