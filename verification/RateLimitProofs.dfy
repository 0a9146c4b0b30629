/** What eviction keeps, and what the limiter promises over whole traces. */
module RateLimitProofs {
  import opened Wrappers
  import opened OrderedMap
  import opened RateLimitSpec

  /* ------------------------------------------------------ what eviction keeps */

  lemma {:induction false} OnlyLiveShape(windows: Windows, now: int, q: Key)
    requires WellFormed(windows)
    ensures WellFormed(OnlyLive(windows, now))
    ensures |OnlyLive(windows, now)| <= |windows|
    ensures Keys(OnlyLive(windows, now)) <= Keys(windows)
    ensures forall i :: 0 <= i < |OnlyLive(windows, now)| ==> OnlyLive(windows, now)[i].1.expiresAt > now
    ensures Get(OnlyLive(windows, now), q) == Live(Get(windows, q), now)
  {
    if windows != [] {
      var rest := windows[1..];
      assert forall i :: 0 <= i < |rest| ==> rest[i] == windows[i + 1];
      OnlyLiveShape(rest, now, q);
      KeysOfCons(windows);
      assert windows[0].0 !in Keys(rest);
      var live := OnlyLive(windows, now);
      if windows[0].1.expiresAt > now {
        assert live[1..] == OnlyLive(rest, now);
        KeysOfCons(live);
        forall i, j | 0 <= i < j < |live| ensures live[i].0 != live[j].0 {
          if i == 0 {
            assert live[1..][j - 1].0 in Keys(live[1..]);
          } else {
            assert live[i] == live[1..][i - 1] && live[j] == live[1..][j - 1];
          }
        }
        assert forall i :: 1 <= i < |live| ==> live[i] == OnlyLive(rest, now)[i - 1];
      } else if windows[0].0 == q {
        GetFinds(rest, q);
      }
    }
  }

  lemma {:induction false} GetInSuffix(windows: Windows, n: nat, q: Key)
    requires WellFormed(windows) && n <= |windows|
    ensures WellFormed(windows[n..]) && Keys(windows[n..]) <= Keys(windows)
    ensures Get(windows[n..], q).Some? ==> Get(windows[n..], q) == Get(windows, q)
    ensures forall i :: 0 <= i < n ==> Get(windows[n..], windows[i].0) == None
  {
    var rest := windows[n..];
    assert forall i :: 0 <= i < |rest| ==> rest[i] == windows[i + n];
    if Get(rest, q).Some? {
      GetFinds(rest, q);
      var i :| 0 <= i < |rest| && rest[i] == (q, Get(rest, q).value);
      GetAt(windows, i + n);
    }
    forall i | 0 <= i < n ensures Get(rest, windows[i].0) == None {
      GetFinds(rest, windows[i].0);
    }
  }

  /** Eviction never invents or changes a window, and makes room below the bound. */
  lemma EvictShape(windows: Windows, maxKeys: nat, now: int, q: Key)
    requires WellFormed(windows)
    ensures WellFormed(Evict(windows, maxKeys, now))
    ensures maxKeys >= 1 ==> |Evict(windows, maxKeys, now)| < maxKeys
    ensures Live(Get(Evict(windows, maxKeys, now), q), now) in {None, Live(Get(windows, q), now)}
  {
    OnlyLiveShape(windows, now, q);
    var live := OnlyLive(windows, now);
    if |windows| >= maxKeys && |live| >= maxKeys && |live| - maxKeys + 1 <= |live| {
      GetInSuffix(live, |live| - maxKeys + 1, q);
    }
  }

  /** The whole condition under which eviction forgets nothing a caller could notice:
      it drops an open window exactly when the open windows already fill the store. */
  lemma EvictionForgetsNothingIff(windows: Windows, maxKeys: nat, now: int)
    requires WellFormed(windows) && maxKeys >= 1
    ensures (forall q :: Live(Get(Evict(windows, maxKeys, now), q), now) == Live(Get(windows, q), now))
       <==> |OnlyLive(windows, now)| < maxKeys
  {
    var live := OnlyLive(windows, now);
    var kept := Evict(windows, maxKeys, now);
    OnlyLiveShape(windows, now, "");
    if |live| < maxKeys {
      forall q ensures Live(Get(kept, q), now) == Live(Get(windows, q), now) {
        OnlyLiveShape(windows, now, q);
      }
    } else {
      var gone := live[0].0;
      OnlyLiveShape(windows, now, gone);
      GetAt(live, 0);
      GetInSuffix(live, |live| - maxKeys + 1, gone);
      assert Live(Get(kept, gone), now) != Live(Get(windows, gone), now);
    }
  }

  /* ------------------------------------------------------------- memory bound */

  /** However full the store was, one request leaves at most maxKeys windows. */
  lemma ConsumeBoundsMemory(windows: Windows, maxKeys: nat, call: Call)
    requires WellFormed(windows) && maxKeys >= 1
    ensures |Consume(windows, maxKeys, call).0| <= maxKeys
    ensures WellFormed(Consume(windows, maxKeys, call).0)
  {
    EvictShape(windows, maxKeys, call.now, call.key);
    ConsumeKeepsWellFormed(windows, maxKeys, call);
    PutShape(Evict(windows, maxKeys, call.now), call.key,
             Counted(Get(Evict(windows, maxKeys, call.now), call.key), call.policy, call.now));
  }

  lemma ConsumeKeepsWellFormed(windows: Windows, maxKeys: nat, call: Call)
    requires WellFormed(windows)
    ensures WellFormed(Consume(windows, maxKeys, call).0)
  {
    var kept := Evict(windows, maxKeys, call.now);
    EvictShape(windows, maxKeys, call.now, call.key);
    PutKeepsCounts(kept, call.key, Counted(Get(kept, call.key), call.policy, call.now));
  }

  lemma {:induction false} PutKeepsCounts(windows: Windows, k: Key, w: Window)
    requires WellFormed(windows) && w.count >= 1
    ensures WellFormed(Put(windows, k, w))
  {
    PutShape(windows, k, w);
    var p := Put(windows, k, w);
    forall i | 0 <= i < |p| ensures p[i].1.count >= 1 {
      GetAt(p, i);
      GetOfPut(windows, k, w, p[i].0);
      if p[i].0 != k {
        GetFinds(windows, p[i].0);
        var j :| 0 <= j < |windows| && windows[j] == p[i];
      }
    }
  }

  /* ---------------------------------------------- refining the ideal limiter */

  /** Both limiters know the same open windows at `now`. */
  ghost predicate Agree(windows: Windows, ideal: map<Key, Window>, now: int) {
    forall q :: Live(Get(windows, q), now) == Live(Find(ideal, q), now)
  }

  /** Before each request fewer than maxKeys windows are open. */
  predicate NeverFull(windows: Windows, maxKeys: nat, calls: seq<Call>)
    decreases |calls|
  {
    calls != [] ==>
      && |OnlyLive(windows, calls[0].now)| < maxKeys
      && NeverFull(Consume(windows, maxKeys, calls[0]).0, maxKeys, calls[1..])
  }

  lemma AgreementSteps(windows: Windows, ideal: map<Key, Window>, maxKeys: nat, call: Call, since: int)
    requires WellFormed(windows) && Agree(windows, ideal, since) && since <= call.now
    requires |OnlyLive(windows, call.now)| < maxKeys
    ensures Consume(windows, maxKeys, call).1 == IdealConsume(ideal, call).1
    ensures Agree(Consume(windows, maxKeys, call).0, IdealConsume(ideal, call).0, call.now)
  {
    var kept := Evict(windows, maxKeys, call.now);
    var now := call.now;
    EvictionForgetsNothingIff(windows, maxKeys, now);
    forall q ensures Live(Get(kept, q), now) == Live(Find(ideal, q), now) {
      assert Live(Get(windows, q), since) == Live(Find(ideal, q), since);
    }
    assert Live(Get(kept, call.key), now) == Live(Find(ideal, call.key), now);
    var window := Counted(Get(kept, call.key), call.policy, now);
    forall q ensures Live(Get(Put(kept, call.key, window), q), now)
                  == Live(Find(ideal[call.key := window], q), now) {
      GetOfPut(kept, call.key, window, q);
    }
  }

  /** The bounded store refines the limiter that never evicts: over a whole trace with
      room to spare, every decision is the same, field by field. */
  lemma {:induction false} RefinesUnbounded(windows: Windows, ideal: map<Key, Window>, maxKeys: nat,
                                            calls: seq<Call>, since: int)
    requires WellFormed(windows) && Agree(windows, ideal, since) && Ordered(calls, since)
    requires NeverFull(windows, maxKeys, calls)
    ensures Decisions(windows, maxKeys, calls) == IdealDecisions(ideal, calls)
    decreases |calls|
  {
    if calls != [] {
      var call := calls[0];
      AgreementSteps(windows, ideal, maxKeys, call, since);
      ConsumeKeepsWellFormed(windows, maxKeys, call);
      RefinesUnbounded(Consume(windows, maxKeys, call).0, IdealConsume(ideal, call).0,
                       maxKeys, calls[1..], call.now);
    }
  }

  /** The condition is the right one: once an open window has been dropped, the two
      limiters answer the very next request for that key differently. */
  lemma ForgettingShows(windows: Windows, ideal: map<Key, Window>, maxKeys: nat, key: Key, now: int)
    requires WellFormed(windows)
    requires Live(Get(windows, key), now) == None
    requires Live(Find(ideal, key), now).Some? && Find(ideal, key).value.count >= 1
    ensures exists policy: Policy :: policy.Valid() &&
              Consume(windows, maxKeys, Call(key, policy, now)).1 != IdealConsume(ideal, Call(key, policy, now)).1
  {
    var policy := Policy(Find(ideal, key).value.count + 1, 1);
    var call := Call(key, policy, now);
    EvictShape(windows, maxKeys, now, key);
    assert Consume(windows, maxKeys, call).1.remaining == policy.limit - 1;
    assert IdealConsume(ideal, call).1.remaining == 0;
    assert policy.Valid();
  }

  /** Dropping a window is not merely generous. The caller whose window is evicted gets
      a later one, and is then refused where the unbounded limiter would allow: the last
      call here comes after the first window has ended. */
  lemma EvictionCanRefuse()
    ensures exists maxKeys: nat, calls: seq<Call> ::
      && maxKeys >= 1 && Ordered(calls, 0) && |calls| == 5
      && (forall c :: c in calls ==> c.policy.Valid())
      && |Decisions([], maxKeys, calls)| == 5 == |IdealDecisions(map[], calls)|
      && !Decisions([], maxKeys, calls)[4].allowed && IdealDecisions(map[], calls)[4].allowed
  {
    var p := Policy(1, 60);
    var a0, b50, c50 := Call("a", p, 0), Call("b", p, 50_000), Call("c", p, 50_000);
    var a59, a61 := Call("a", p, 59_000), Call("a", p, 61_000);
    var calls := [a0, b50, c50, a59, a61];
    TailsOfFive(a0, b50, c50, a59, a61);
    assert Ordered([], a61.now) && Ordered([a61], a59.now) && Ordered([a59, a61], c50.now);
    assert Ordered([c50, a59, a61], b50.now) && Ordered([b50, c50, a59, a61], a0.now);
    IdealEvictionTrace(a0, b50, c50, a59, a61);
    BoundedEvictionTrace(a0, b50, c50, a59, a61);
  }

  lemma BoundedEvictionTrace(a0: Call, b50: Call, c50: Call, a59: Call, a61: Call)
    requires var p := Policy(1, 60);
      && a0 == Call("a", p, 0) && b50 == Call("b", p, 50_000) && c50 == Call("c", p, 50_000)
      && a59 == Call("a", p, 59_000) && a61 == Call("a", p, 61_000)
    ensures |Decisions([], 2, [a0, b50, c50, a59, a61])| == 5
    ensures !Decisions([], 2, [a0, b50, c50, a59, a61])[4].allowed
  {
    TailsOfFive(a0, b50, c50, a59, a61);
    var wA, wB, wC := ("a", Window(60_000, 1)), ("b", Window(110_000, 1)), ("c", Window(110_000, 1));
    var wA' := ("a", Window(119_000, 1));
    FirstStores(a0, b50, wA, wB);
    FullStoreStep(wA, wB, c50, wC);
    FullStoreStep(wB, wC, a59, wA');
    RefusedAfterEviction(wC, wA', a61);
    var last := Decisions([wC, wA'], 2, [a61]);
    assert Decisions(Consume([wC, wA'], 2, a61).0, 2, [a61][1..]) == [];
    assert last == [Consume([wC, wA'], 2, a61).1];
    assert Decisions([wB, wC], 2, [a59, a61]) == [Consume([wB, wC], 2, a59).1] + last;
    assert |Decisions([wA, wB], 2, [c50, a59, a61])| == 3;
    assert |Decisions([wA], 2, [b50, c50, a59, a61])| == 4;
  }

  lemma FirstStores(a0: Call, b50: Call, wA: (Key, Window), wB: (Key, Window))
    requires a0 == Call("a", Policy(1, 60), 0) && b50 == Call("b", Policy(1, 60), 50_000)
    requires wA == ("a", Window(60_000, 1)) && wB == ("b", Window(110_000, 1))
    ensures Consume([], 2, a0).0 == [wA] && Consume([wA], 2, b50).0 == [wA, wB]
  {
    assert [wA][1..] == [];
  }

  /** A full store of two open windows loses the older one to a third key. */
  lemma FullStoreStep(oldest: (Key, Window), newest: (Key, Window), call: Call, added: (Key, Window))
    requires oldest.1.expiresAt > call.now && newest.1.expiresAt > call.now && newest.0 != call.key
    requires added == (call.key, Window(call.now + call.policy.WindowMs(), 1))
    ensures Consume([oldest, newest], 2, call).0 == [newest, added]
  {
    assert [oldest, newest][1..] == [newest] && [newest][1..] == [];
    assert OnlyLive([newest], call.now) == [newest];
    assert OnlyLive([oldest, newest], call.now) == [oldest, newest];
    assert Evict([oldest, newest], 2, call.now) == [newest];
    assert Get([newest], call.key) == None;
    assert Put([newest], call.key, added.1) == [newest, added];
  }

  lemma RefusedAfterEviction(other: (Key, Window), own: (Key, Window), call: Call)
    requires other.1.expiresAt > call.now && own.1.expiresAt > call.now && other.0 != own.0 == call.key
    requires own.1.count >= call.policy.limit
    ensures !Consume([other, own], 2, call).1.allowed
  {
    assert [other, own][1..] == [own] && [own][1..] == [];
    assert OnlyLive([own], call.now) == [own];
    assert OnlyLive([other, own], call.now) == [other, own];
  }

  lemma TailsOfFive<T>(a: T, b: T, c: T, d: T, e: T)
    ensures [a, b, c, d, e][1..] == [b, c, d, e] && [b, c, d, e][1..] == [c, d, e]
    ensures [c, d, e][1..] == [d, e] && [d, e][1..] == [e] && [e][1..] == []
  {
  }

  lemma IdealEvictionTrace(a0: Call, b50: Call, c50: Call, a59: Call, a61: Call)
    requires var p := Policy(1, 60);
      && a0 == Call("a", p, 0) && b50 == Call("b", p, 50_000) && c50 == Call("c", p, 50_000)
      && a59 == Call("a", p, 59_000) && a61 == Call("a", p, 61_000)
    ensures |IdealDecisions(map[], [a0, b50, c50, a59, a61])| == 5
    ensures IdealDecisions(map[], [a0, b50, c50, a59, a61])[4].allowed
  {
    TailsOfFive(a0, b50, c50, a59, a61);
    var m1 := IdealConsume(map[], a0).0;
    var m2 := IdealConsume(m1, b50).0;
    var m3 := IdealConsume(m2, c50).0;
    var m4 := IdealConsume(m3, a59).0;
    assert m4["a"] == Window(60_000, 2);
    var d4 := IdealDecisions(m4, [a61]);
    assert IdealDecisions(IdealConsume(m4, a61).0, [a61][1..]) == [];
    assert d4 == [IdealConsume(m4, a61).1];
    var d3 := IdealDecisions(m3, [a59, a61]);
    assert d3 == [IdealConsume(m3, a59).1] + d4;
    var d2 := IdealDecisions(m2, [c50, a59, a61]);
    assert d2 == [IdealConsume(m2, c50).1] + d3;
    var d1 := IdealDecisions(m1, [b50, c50, a59, a61]);
    assert d1 == [IdealConsume(m1, b50).1] + d2;
    assert IdealDecisions(map[], [a0, b50, c50, a59, a61]) == [IdealConsume(map[], a0).1] + d1;
  }

  /* ----------------------------------------------- when an eviction can refuse */

  function StoreAfter(maxKeys: nat, calls: seq<Call>): Windows {
    if calls == [] then [] else Consume(StoreAfter(maxKeys, calls[..|calls| - 1]), maxKeys, calls[|calls| - 1]).0
  }

  function IdealAfter(calls: seq<Call>): map<Key, Window> {
    if calls == [] then map[] else IdealConsume(IdealAfter(calls[..|calls| - 1]), calls[|calls| - 1]).0
  }

  /** A stored window beside the one that was never lost: it opened before that one ends;
      and unless it ends first, it has counted no more. */
  ghost predicate Trails(stored: Option<Window>, kept: Option<Window>, policy: Policy) {
    stored.Some? ==>
      && kept.Some? && stored.value.expiresAt - policy.WindowMs() < kept.value.expiresAt
      && (stored.value.expiresAt >= kept.value.expiresAt ==> stored.value.count <= kept.value.count)
  }

  lemma CountingKeepsTrailing(stored: Option<Window>, kept: Option<Window>, policy: Policy, now: int)
    requires policy.Valid() && Trails(Live(stored, now), kept, policy)
    ensures Trails(Some(Counted(stored, policy, now)), Some(Counted(kept, policy, now)), policy)
    ensures !Decide(Counted(stored, policy, now), policy, now).allowed
            && Decide(Counted(kept, policy, now), policy, now).allowed ==>
              Counted(stored, policy, now).expiresAt < Counted(kept, policy, now).expiresAt
  {
  }

  lemma {:induction false} StoreTrails(maxKeys: nat, calls: seq<Call>, key: Key, policy: Policy, now: int)
    requires policy.Valid() && forall i :: 0 <= i < |calls| && calls[i].key == key ==> calls[i].policy == policy
    requires forall i, j :: 0 <= i < j < |calls| ==> calls[i].now <= calls[j].now
    requires calls != [] ==> calls[|calls| - 1].now <= now
    ensures WellFormed(StoreAfter(maxKeys, calls))
    ensures Trails(Live(Get(StoreAfter(maxKeys, calls), key), now), Find(IdealAfter(calls), key), policy)
    decreases |calls|
  {
    if calls != [] {
      var init, call := calls[..|calls| - 1], calls[|calls| - 1];
      StoreTrails(maxKeys, init, key, policy, call.now);
      var before, ideal := StoreAfter(maxKeys, init), IdealAfter(init);
      var kept := Evict(before, maxKeys, call.now);
      ConsumeKeepsWellFormed(before, maxKeys, call);
      EvictShape(before, maxKeys, call.now, key);
      GetOfPut(kept, call.key, Counted(Get(kept, call.key), call.policy, call.now), key);
      if call.key == key { CountingKeepsTrailing(Get(kept, key), Find(ideal, key), policy, call.now); }
    }
  }

  /** When losing a window can harm its caller. Over every trace from the empty store in
      which a key keeps its policy: a request that the bounded store refuses and the ideal
      limiter allows is counted in a window that ends before the ideal one. It opened, then,
      in place of a lost window that has run out since: while the window that was lost would
      still be open, the caller is only ever better off. */
  lemma RefusedOnlyAfterLostWindow(maxKeys: nat, calls: seq<Call>, k: nat, policy: Policy)
    requires k < |calls| && policy.Valid() && Ordered(calls, calls[0].now)
    requires forall i :: 0 <= i < |calls| && calls[i].key == calls[k].key ==> calls[i].policy == policy
    requires !Consume(StoreAfter(maxKeys, calls[..k]), maxKeys, calls[k]).1.allowed
    requires IdealConsume(IdealAfter(calls[..k]), calls[k]).1.allowed
    ensures var stored, kept := Get(StoreAfter(maxKeys, calls[..k + 1]), calls[k].key),
                                Find(IdealAfter(calls[..k + 1]), calls[k].key);
      && stored.Some? && kept.Some? && calls[k].now < stored.value.expiresAt < kept.value.expiresAt
      && stored.value.count > policy.limit >= kept.value.count
  {
    var init, call := calls[..k], calls[k];
    OrderedPairs(calls, calls[0].now);
    assert forall i :: 0 <= i < |init| ==> init[i] == calls[i];
    StoreTrails(maxKeys, init, call.key, policy, call.now);
    var before := StoreAfter(maxKeys, init);
    var kept := Evict(before, maxKeys, call.now);
    EvictShape(before, maxKeys, call.now, call.key);
    CountingKeepsTrailing(Get(kept, call.key), Find(IdealAfter(init), call.key), policy, call.now);
    GetOfPut(kept, call.key, Counted(Get(kept, call.key), call.policy, call.now), call.key);
    assert calls[..k + 1][..k] == init && calls[..k + 1][k] == call;
  }

  lemma {:induction false} OrderedPairs(calls: seq<Call>, since: int)
    requires Ordered(calls, since)
    ensures forall i :: 0 <= i < |calls| ==> since <= calls[i].now
    ensures forall i, j :: 0 <= i < j < |calls| ==> calls[i].now <= calls[j].now
    decreases |calls|
  {
    if calls != [] {
      OrderedPairs(calls[1..], calls[0].now);
      forall i, j | 0 <= i < j < |calls| ensures calls[i].now <= calls[j].now {
        assert calls[j] == calls[1..][j - 1];
        if i > 0 { assert calls[i] == calls[1..][i - 1]; }
      }
    }
  }
}
