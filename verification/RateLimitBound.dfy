/** How many requests of one key a fixed window lets through in a span of time. */
module RateLimitBound {
  import opened Wrappers
  import opened OrderedMap
  import opened RateLimitSpec
  import opened RateLimitProofs

  /** How many of `key`'s requests the store allows at a time in [from, until). */
  function AllowedIn(windows: Windows, maxKeys: nat, calls: seq<Call>, key: Key, from: int, until: int): nat
    decreases |calls|
  {
    if calls == [] then 0
    else
      var (next, decision) := Consume(windows, maxKeys, calls[0]);
      var counted := calls[0].key == key && decision.allowed && from <= calls[0].now < until;
      (if counted then 1 else 0) + AllowedIn(next, maxKeys, calls[1..], key, from, until)
  }

  /** No request evicts an open window of `key`. Other keys may lose theirs. */
  predicate KeepsWindow(windows: Windows, maxKeys: nat, calls: seq<Call>, key: Key)
    decreases |calls|
  {
    calls != [] ==>
      && Live(Get(Evict(windows, maxKeys, calls[0].now), key), calls[0].now)
         == Live(Get(windows, key), calls[0].now)
      && KeepsWindow(Consume(windows, maxKeys, calls[0]).0, maxKeys, calls[1..], key)
  }

  /** A key keeps one policy: its rate class is part of the key. */
  predicate OnePolicy(calls: seq<Call>, key: Key, policy: Policy) {
    forall i :: 0 <= i < |calls| && calls[i].key == key ==> calls[i].policy == policy
  }

  /** Under one key, a request counts in its own window and leaves others' alone. */
  lemma OwnWindowAfter(windows: Windows, maxKeys: nat, call: Call, key: Key)
    requires WellFormed(windows)
    requires Live(Get(Evict(windows, maxKeys, call.now), key), call.now) == Live(Get(windows, key), call.now)
    ensures WellFormed(Consume(windows, maxKeys, call).0)
    ensures Live(Get(Consume(windows, maxKeys, call).0, key), call.now)
         == if call.key == key then Live(Some(Counted(Get(windows, key), call.policy, call.now)), call.now)
            else Live(Get(windows, key), call.now)
  {
    ConsumeKeepsWellFormed(windows, maxKeys, call);
    var kept := Evict(windows, maxKeys, call.now);
    GetOfPut(kept, call.key, Counted(Get(kept, call.key), call.policy, call.now), key);
  }

  /** A window that ends at `window.expiresAt`, and a span ending at most n windows after
      it, allow what is left of this window and n whole budgets. */
  lemma {:induction false} RestOfWindow(windows: Windows, maxKeys: nat, calls: seq<Call>, key: Key,
                                        policy: Policy, window: Window, from: int, until: int, n: nat)
    requires WellFormed(windows) && policy.Valid() && OnePolicy(calls, key, policy)
    requires KeepsWindow(windows, maxKeys, calls, key)
    requires calls != [] ==> Ordered(calls, calls[0].now)
    requires calls != [] ==> Live(Get(windows, key), calls[0].now) == Live(Some(window), calls[0].now)
    requires until <= window.expiresAt + n * policy.WindowMs()
    ensures AllowedIn(windows, maxKeys, calls, key, from, until)
         <= (if window.count <= policy.limit then policy.limit - window.count else 0) + n * policy.limit
    decreases |calls|
  {
    if calls != [] && calls[0].now < until {
      var call := calls[0];
      var next := Consume(windows, maxKeys, call).0;
      var rest := calls[1..];
      OwnWindowAfter(windows, maxKeys, call, key);
      assert forall i :: 0 <= i < |rest| ==> rest[i] == calls[i + 1];
      if call.key != key {
        RestOfWindow(next, maxKeys, rest, key, policy, window, from, until, n);
      } else if window.expiresAt > call.now {
        RestOfWindow(next, maxKeys, rest, key, policy, Window(window.expiresAt, window.count + 1), from, until, n);
      } else {
        SpanReachesNextWindow(window.expiresAt, call.now, until, n, policy);
        RestOfWindow(next, maxKeys, rest, key, policy, Window(call.now + policy.WindowMs(), 1), from, until, n - 1);
      }
    } else if calls != [] {
      NothingAfter(windows, maxKeys, calls, key, from, until);
    }
  }

  lemma SpanReachesNextWindow(expiresAt: int, now: int, until: int, n: nat, policy: Policy)
    requires policy.Valid() && expiresAt <= now < until <= expiresAt + n * policy.WindowMs()
    ensures n >= 1 && until <= now + policy.WindowMs() + (n - 1) * policy.WindowMs()
    ensures policy.limit + (n - 1) * policy.limit == n * policy.limit
  {
    assert policy.WindowMs() + (n - 1) * policy.WindowMs() == n * policy.WindowMs();
  }

  lemma {:induction false} NothingAfter(windows: Windows, maxKeys: nat, calls: seq<Call>, key: Key, from: int,
                                        until: int)
    requires calls != [] ==> Ordered(calls, calls[0].now) && until <= calls[0].now
    ensures AllowedIn(windows, maxKeys, calls, key, from, until) == 0
    decreases |calls|
  {
    if calls != [] {
      NothingAfter(Consume(windows, maxKeys, calls[0]).0, maxKeys, calls[1..], key, from, until);
    }
  }

  /** From a moment with no open window, n window lengths allow at most n budgets. */
  lemma {:induction false} FreshSpan(windows: Windows, maxKeys: nat, calls: seq<Call>, key: Key,
                                     policy: Policy, from: int, until: int, n: nat)
    requires WellFormed(windows) && policy.Valid() && OnePolicy(calls, key, policy)
    requires KeepsWindow(windows, maxKeys, calls, key) && n >= 1
    requires calls != [] ==> Ordered(calls, calls[0].now) && Live(Get(windows, key), calls[0].now) == None
    requires calls != [] ==> until <= calls[0].now + n * policy.WindowMs()
    ensures AllowedIn(windows, maxKeys, calls, key, from, until) <= n * policy.limit
    decreases |calls|
  {
    if calls != [] {
      var call := calls[0];
      var next := Consume(windows, maxKeys, call).0;
      var rest := calls[1..];
      OwnWindowAfter(windows, maxKeys, call, key);
      assert forall i :: 0 <= i < |rest| ==> rest[i] == calls[i + 1];
      if call.key != key {
        FreshSpan(next, maxKeys, rest, key, policy, from, until, n);
      } else {
        SplitOne(call.now, n, policy);
        RestOfWindow(next, maxKeys, rest, key, policy, Window(call.now + policy.WindowMs(), 1), from, until, n - 1);
      }
    }
  }

  lemma SplitOne(now: int, n: nat, policy: Policy)
    requires n >= 1
    ensures now + n * policy.WindowMs() == now + policy.WindowMs() + (n - 1) * policy.WindowMs()
    ensures policy.limit + (n - 1) * policy.limit == n * policy.limit
  {
  }

  /** The promise of a fixed window, sharpened. In any span of n window lengths one key
      is allowed fewer than n + 1 budgets: the window open when the span begins has
      already spent at least one request. */
  lemma {:induction false} RateBound(windows: Windows, maxKeys: nat, calls: seq<Call>, key: Key,
                                     policy: Policy, since: int, from: int, n: nat)
    requires WellFormed(windows) && policy.Valid() && OnePolicy(calls, key, policy) && n >= 1
    requires Ordered(calls, since) && KeepsWindow(windows, maxKeys, calls, key)
    ensures AllowedIn(windows, maxKeys, calls, key, from, from + n * policy.WindowMs()) < (n + 1) * policy.limit
    decreases |calls|
  {
    var until := from + n * policy.WindowMs();
    assert (n + 1) * policy.limit == n * policy.limit + policy.limit;
    if calls == [] {
      assert 0 <= n * policy.limit;
    } else if calls[0].now < from {
      var call := calls[0];
      OwnWindowAfter(windows, maxKeys, call, key);
      var rest := calls[1..];
      assert forall i :: 0 <= i < |rest| ==> rest[i] == calls[i + 1];
      RateBound(Consume(windows, maxKeys, call).0, maxKeys, rest, key, policy, call.now, from, n);
    } else {
      match Live(Get(windows, key), calls[0].now)
      case Some(window) =>
        GetFinds(windows, key);
        RestOfWindow(windows, maxKeys, calls, key, policy, window, from, until, n);
      case None =>
        FreshSpan(windows, maxKeys, calls, key, policy, from, until, n);
    }
  }

  /* ------------------------------------------------------- the bound is exact */

  function Repeat(call: Call, times: nat): seq<Call> {
    if times == 0 then [] else [call] + Repeat(call, times - 1)
  }

  /** A whole budget at the start of each of the windows first, ..., n. */
  function Bursts(key: Key, policy: Policy, first: nat, n: nat): seq<Call>
    decreases n + 1 - first
  {
    if first > n then []
    else Repeat(Call(key, policy, first * policy.WindowMs()), policy.limit) + Bursts(key, policy, first + 1, n)
  }

  /** One early request opens a window; the rest of its budget waits for the span. */
  function WorstTrace(key: Key, policy: Policy, n: nat): seq<Call>
    requires policy.Valid()
  {
    [Call(key, policy, 0)] + (Repeat(Call(key, policy, 1), policy.limit - 1) + Bursts(key, policy, 1, n))
  }

  /** What a key with the store to itself is allowed, by its one window. */
  function AllowedAlone(window: Window, calls: seq<Call>, from: int, until: int): nat
    decreases |calls|
  {
    if calls == [] then 0
    else
      var counted := Counted(Some(window), calls[0].policy, calls[0].now);
      (if counted.count <= calls[0].policy.limit && from <= calls[0].now < until then 1 else 0)
      + AllowedAlone(counted, calls[1..], from, until)
  }

  lemma {:induction false} AloneInStore(key: Key, window: Window, calls: seq<Call>, from: int, until: int)
    requires forall i :: 0 <= i < |calls| ==> calls[i].key == key
    ensures AllowedIn([(key, window)], 2, calls, key, from, until) == AllowedAlone(window, calls, from, until)
    decreases |calls|
  {
    if calls != [] {
      var counted := Counted(Some(window), calls[0].policy, calls[0].now);
      assert [(key, window)][1..] == [];
      assert Consume([(key, window)], 2, calls[0]).0 == [(key, counted)];
      AloneInStore(key, counted, calls[1..], from, until);
    }
  }

  /** Requests of one key inside its open window are all allowed until the budget ends. */
  lemma {:induction false} BurstAllowed(call: Call, times: nat, rest: seq<Call>, window: Window, from: int, until: int)
    requires window.expiresAt > call.now && window.count + times <= call.policy.limit
    requires from <= call.now < until
    ensures AllowedAlone(window, Repeat(call, times) + rest, from, until)
         == times + AllowedAlone(Window(window.expiresAt, window.count + times), rest, from, until)
    decreases times
  {
    var calls := Repeat(call, times) + rest;
    if times == 0 {
      assert calls == rest;
    } else {
      assert calls[0] == call && calls[1..] == Repeat(call, times - 1) + rest;
      BurstAllowed(call, times - 1, rest, Window(window.expiresAt, window.count + 1), from, until);
    }
  }

  /** A whole budget, asked for once the last window is over, is allowed. */
  lemma BudgetAllowed(call: Call, rest: seq<Call>, window: Window, from: int, until: int)
    requires call.policy.Valid() && window.expiresAt <= call.now && from <= call.now < until
    ensures AllowedAlone(window, Repeat(call, call.policy.limit) + rest, from, until)
         == call.policy.limit
            + AllowedAlone(Window(call.now + call.policy.WindowMs(), call.policy.limit), rest, from, until)
  {
    var calls, later := Repeat(call, call.policy.limit) + rest, Repeat(call, call.policy.limit - 1) + rest;
    assert Repeat(call, call.policy.limit) == [call] + Repeat(call, call.policy.limit - 1);
    assert calls[0] == call && calls[1..] == later;
    BurstAllowed(call, call.policy.limit - 1, rest, Window(call.now + call.policy.WindowMs(), 1), from, until);
  }

  lemma {:induction false} BurstsAllowed(key: Key, policy: Policy, first: nat, n: nat, window: Window, until: int)
    requires policy.Valid() && 1 <= first <= n + 1
    requires window.expiresAt == first * policy.WindowMs() && until > n * policy.WindowMs()
    ensures AllowedAlone(window, Bursts(key, policy, first, n), 1, until) == (n + 1 - first) * policy.limit
    decreases n + 1 - first
  {
    if first <= n {
      var call := Call(key, policy, first * policy.WindowMs());
      BurstTimes(first, n, policy.WindowMs());
      BudgetAllowed(call, Bursts(key, policy, first + 1, n), window, 1, until);
      BurstsAllowed(key, policy, first + 1, n, Window(call.now + policy.WindowMs(), policy.limit), until);
      BudgetsLeft(n + 1 - first, policy.limit);
    }
  }

  lemma BudgetsLeft(windows: nat, limit: nat)
    requires windows >= 1
    ensures windows * limit == limit + (windows - 1) * limit
  {
  }

  lemma BurstTimes(first: nat, n: nat, ms: nat)
    requires 1 <= first <= n && ms >= 1000
    ensures 1 <= first * ms <= n * ms && first * ms + ms == (first + 1) * ms
  {
    assert (n - first) * ms >= 0;
    assert (first - 1) * ms >= 0;
  }

  lemma WorstTraceShape(key: Key, policy: Policy, n: nat)
    requires policy.Valid()
    ensures OnePolicy(WorstTrace(key, policy, n), key, policy) && Ordered(WorstTrace(key, policy, n), 0)
    ensures forall i :: 0 <= i < |WorstTrace(key, policy, n)| ==> WorstTrace(key, policy, n)[i].key == key
  {
    var trace := WorstTrace(key, policy, n);
    BurstsShape(key, policy, 1, n, 1);
    RepeatShape(Call(key, policy, 1), policy.limit - 1, Bursts(key, policy, 1, n), 0);
    assert forall i :: 1 <= i < |trace| ==> trace[i] == trace[1..][i - 1];
  }

  /** No smaller bound holds: for every policy and every n there is a trace that is
      allowed (n + 1) * limit - 1 requests within n window lengths. */
  lemma RateBoundIsExact(key: Key, policy: Policy, n: nat)
    requires policy.Valid() && n >= 1
    ensures OnePolicy(WorstTrace(key, policy, n), key, policy)
    ensures Ordered(WorstTrace(key, policy, n), 0) && KeepsWindow([], 2, WorstTrace(key, policy, n), key)
    ensures AllowedIn([], 2, WorstTrace(key, policy, n), key, 1, 1 + n * policy.WindowMs())
            == (n + 1) * policy.limit - 1
  {
    var ms, until, trace := policy.WindowMs(), 1 + n * policy.WindowMs(), WorstTrace(key, policy, n);
    var later := Repeat(Call(key, policy, 1), policy.limit - 1) + Bursts(key, policy, 1, n);
    WorstTraceShape(key, policy, n);
    OneKeyKeepsWindow(key, trace, []);
    assert trace[0] == Call(key, policy, 0) && trace[1..] == later;
    assert forall i :: 0 <= i < |later| ==> later[i] == trace[i + 1];
    assert Consume([], 2, trace[0]).0 == [(key, Window(ms, 1))];
    AloneInStore(key, Window(ms, 1), later, 1, until);
    BurstTimes(1, n, ms);
    BurstAllowed(Call(key, policy, 1), policy.limit - 1, Bursts(key, policy, 1, n), Window(ms, 1), 1, until);
    BurstsAllowed(key, policy, 1, n, Window(ms, policy.limit), until);
    assert (n + 1) * policy.limit == policy.limit + n * policy.limit;
  }

  lemma {:induction false} RepeatShape(call: Call, times: nat, rest: seq<Call>, since: int)
    requires since <= call.now && Ordered(rest, call.now)
    requires forall i :: 0 <= i < |rest| ==> rest[i].key == call.key && rest[i].policy == call.policy
    ensures Ordered(Repeat(call, times) + rest, since)
    ensures forall i :: 0 <= i < |Repeat(call, times) + rest| ==>
              (Repeat(call, times) + rest)[i].key == call.key && (Repeat(call, times) + rest)[i].policy == call.policy
  {
    var calls := Repeat(call, times) + rest;
    if times == 0 {
      assert calls == rest;
      OrderedEarlier(rest, since, call.now);
    } else {
      assert calls[0] == call && calls[1..] == Repeat(call, times - 1) + rest;
      RepeatShape(call, times - 1, rest, call.now);
      assert forall i :: 1 <= i < |calls| ==> calls[i] == calls[1..][i - 1];
    }
  }

  lemma OrderedEarlier(calls: seq<Call>, since: int, later: int)
    requires since <= later && Ordered(calls, later)
    ensures Ordered(calls, since)
  {
  }

  lemma {:induction false} BurstsShape(key: Key, policy: Policy, first: nat, n: nat, since: int)
    requires policy.Valid() && since <= first * policy.WindowMs()
    ensures Ordered(Bursts(key, policy, first, n), since)
    ensures forall i :: 0 <= i < |Bursts(key, policy, first, n)| ==>
              Bursts(key, policy, first, n)[i].key == key && Bursts(key, policy, first, n)[i].policy == policy
    decreases n + 1 - first
  {
    if first <= n {
      var ms := policy.WindowMs();
      assert (first + 1) * ms == first * ms + ms;
      BurstsShape(key, policy, first + 1, n, first * ms);
      RepeatShape(Call(key, policy, first * ms), policy.limit, Bursts(key, policy, first + 1, n), since);
    }
  }

  /** A store that only ever sees one key has room for it. */
  lemma {:induction false} OneKeyKeepsWindow(key: Key, calls: seq<Call>, windows: Windows)
    requires forall i :: 0 <= i < |calls| ==> calls[i].key == key
    requires windows == [] || (|windows| == 1 && windows[0].0 == key)
    ensures KeepsWindow(windows, 2, calls, key)
    decreases |calls|
  {
    if calls != [] {
      assert forall i :: 0 <= i < |calls[1..]| ==> calls[1..][i] == calls[i + 1];
      OneKeyKeepsWindow(key, calls[1..], Consume(windows, 2, calls[0]).0);
    }
  }

  /* -------------------------------------------- what a lost window costs its caller */

  /** How many of the requests are `key`'s. */
  function Asked(calls: seq<Call>, key: Key): nat {
    if calls == [] then 0 else (if calls[0].key == key then 1 else 0) + Asked(calls[1..], key)
  }

  lemma {:induction false} CountedApart(windows: Windows, ideal: map<Key, Window>, maxKeys: nat, calls: seq<Call>,
                                        key: Key, policy: Policy, stored: Window, asked: nat, k: nat)
    requires WellFormed(windows) && policy.Valid() && OnePolicy(calls, key, policy)
    requires KeepsWindow(windows, maxKeys, calls, key) && Get(windows, key) == Some(stored)
    requires k < |calls| && calls[k].key == key && Ordered(calls, calls[0].now)
    requires stored.expiresAt <= calls[0].now + policy.WindowMs()
    requires forall i :: 0 <= i < |calls| ==> calls[i].now < stored.expiresAt
    requires if asked == 0 then Live(Find(ideal, key), calls[0].now) == None
             else Find(ideal, key).Some? && Find(ideal, key).value.count == asked
                  && stored.expiresAt <= Find(ideal, key).value.expiresAt
    ensures |Decisions(windows, maxKeys, calls)| == |IdealDecisions(ideal, calls)| == |calls|
    ensures Decisions(windows, maxKeys, calls)[k].allowed <==> stored.count + Asked(calls[..k + 1], key) <= policy.limit
    ensures IdealDecisions(ideal, calls)[k].allowed <==> asked + Asked(calls[..k + 1], key) <= policy.limit
    decreases |calls|
  {
    var call, rest := calls[0], calls[1..];
    var next, next' := Consume(windows, maxKeys, call).0, IdealConsume(ideal, call).0;
    OwnWindowAfter(windows, maxKeys, call, key);
    assert forall i :: 0 <= i < |rest| ==> rest[i] == calls[i + 1];
    OneDecisionEach(windows, ideal, maxKeys, calls);
    var own := call.key == key;
    assert calls[..k + 1][1..] == rest[..k];
    if k == 0 {
      assert calls[..1][1..] == [];
    } else {
      CountedApart(next, next', maxKeys, rest, key, policy,
                   if own then Window(stored.expiresAt, stored.count + 1) else stored,
                   if own then asked + 1 else asked, k - 1);
    }
  }

  lemma {:induction false} OneDecisionEach(windows: Windows, ideal: map<Key, Window>, maxKeys: nat, calls: seq<Call>)
    ensures |Decisions(windows, maxKeys, calls)| == |IdealDecisions(ideal, calls)| == |calls|
    decreases |calls|
  {
    if calls != [] {
      OneDecisionEach(Consume(windows, maxKeys, calls[0]).0, IdealConsume(ideal, calls[0]).0, maxKeys, calls[1..]);
    }
  }

  /** The other direction of `RefusedOnlyAfterLostWindow`. A window opened in place of a lost
      one has counted some requests; the lost one has run out. Over every trace inside the
      window that was opened, the bounded store refuses what the ideal limiter allows from
      the request that goes over the budget with those, to the one that fills a fresh budget,
      and no other: exactly as many as had been counted, or the whole budget. */
  lemma RefusedAfterLostWindowIff(windows: Windows, ideal: map<Key, Window>, maxKeys: nat, calls: seq<Call>, key: Key,
                                  policy: Policy, replacing: Window, k: nat)
    requires WellFormed(windows) && policy.Valid() && OnePolicy(calls, key, policy)
    requires KeepsWindow(windows, maxKeys, calls, key) && Get(windows, key) == Some(replacing)
    requires k < |calls| && calls[k].key == key && Ordered(calls, calls[0].now)
    requires replacing.expiresAt <= calls[0].now + policy.WindowMs() && Live(Find(ideal, key), calls[0].now) == None
    requires forall i :: 0 <= i < |calls| ==> calls[i].now < replacing.expiresAt
    ensures |Decisions(windows, maxKeys, calls)| == |IdealDecisions(ideal, calls)| == |calls|
    ensures var nth := Asked(calls[..k + 1], key);
      !Decisions(windows, maxKeys, calls)[k].allowed && IdealDecisions(ideal, calls)[k].allowed
      <==> policy.limit - replacing.count < nth <= policy.limit
  {
    CountedApart(windows, ideal, maxKeys, calls, key, policy, replacing, 0, k);
  }
}
