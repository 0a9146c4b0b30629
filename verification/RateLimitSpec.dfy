/** The fixed-window limiter as functions: the bounded store, which evicts when it is
    full, and the limiter it stands for, which never forgets a window. */
module RateLimitSpec {
  import opened Wrappers
  import opened OrderedMap

  datatype Policy = Policy(limit: nat, windowSeconds: nat)
  {
    predicate Valid() { limit > 0 && windowSeconds > 0 }
    function WindowMs(): nat { windowSeconds * 1000 }
  }

  /** A window's end in milliseconds, and the requests counted in it so far. */
  datatype Window = Window(expiresAt: int, count: nat)

  datatype Decision = Decision(allowed: bool, remaining: nat, retryAfterSeconds: nat, limit: nat)

  type Key = string
  type Windows = OrderedMap<Key, Window>

  datatype Call = Call(key: Key, policy: Policy, now: int)

  /** What a key's window still says at `now`: an expired one says nothing. */
  function Live(window: Option<Window>, now: int): Option<Window> {
    if window.Some? && window.value.expiresAt > now then window else None
  }

  /** The window a request is counted in, including that request. */
  function Counted(existing: Option<Window>, policy: Policy, now: int): Window {
    match Live(existing, now)
    case Some(w) => Window(w.expiresAt, w.count + 1)
    case None => Window(now + policy.WindowMs(), 1)
  }

  function Decide(window: Window, policy: Policy, now: int): Decision {
    var wait := (window.expiresAt - now + 999) / 1000;
    Decision(
      window.count <= policy.limit,
      if window.count <= policy.limit then policy.limit - window.count else 0,
      if wait > 1 then wait else 1,
      policy.limit)
  }

  /* ------------------------------------------------------- the bounded store */

  /** The entries still open at `now`, in the order they are stored. */
  function OnlyLive(windows: Windows, now: int): Windows {
    if windows == [] then []
    else if windows[0].1.expiresAt <= now then OnlyLive(windows[1..], now)
    else [windows[0]] + OnlyLive(windows[1..], now)
  }

  function Evict(windows: Windows, maxKeys: nat, now: int): Windows {
    if |windows| < maxKeys then windows
    else
      var live := OnlyLive(windows, now);
      if |live| < maxKeys then live
      else
        var excess := |live| - maxKeys + 1;
        if excess <= |live| then live[excess..] else []
  }

  function Consume(windows: Windows, maxKeys: nat, call: Call): (Windows, Decision) {
    var kept := Evict(windows, maxKeys, call.now);
    var window := Counted(Get(kept, call.key), call.policy, call.now);
    (Put(kept, call.key, window), Decide(window, call.policy, call.now))
  }

  function Decisions(windows: Windows, maxKeys: nat, calls: seq<Call>): seq<Decision>
    decreases |calls|
  {
    if calls == [] then []
    else
      var (next, decision) := Consume(windows, maxKeys, calls[0]);
      [decision] + Decisions(next, maxKeys, calls[1..])
  }

  /* ---------------------------------------------------- the unbounded limiter */

  function Find(ideal: map<Key, Window>, key: Key): Option<Window> {
    if key in ideal then Some(ideal[key]) else None
  }

  function IdealConsume(ideal: map<Key, Window>, call: Call): (map<Key, Window>, Decision) {
    var window := Counted(Find(ideal, call.key), call.policy, call.now);
    (ideal[call.key := window], Decide(window, call.policy, call.now))
  }

  function IdealDecisions(ideal: map<Key, Window>, calls: seq<Call>): seq<Decision>
    decreases |calls|
  {
    if calls == [] then []
    else
      var (next, decision) := IdealConsume(ideal, calls[0]);
      [decision] + IdealDecisions(next, calls[1..])
  }

  /** The clock never runs backwards from `since` on. */
  predicate Ordered(calls: seq<Call>, since: int) {
    calls != [] ==> since <= calls[0].now && Ordered(calls[1..], calls[0].now)
  }

  /** A reachable store: no key twice, and every window has counted something. */
  ghost predicate WellFormed(windows: Windows) {
    Distinct(windows) && forall i :: 0 <= i < |windows| ==> windows[i].1.count >= 1
  }
}
