/** The store and the guard's audit throttle as the program runs them, in place. */
module RateLimitStore {
  import opened Wrappers
  import opened OrderedMap
  import opened RateLimitSpec
  import opened RateLimitProofs

  class RateLimitStore {
    const maxKeys: nat
    var windows: Windows
    /** Every request the store has decided: its key, its time, and the answer. */
    ghost var log: seq<(Key, int, bool)>

    ghost predicate Valid()
      reads this
    {
      WellFormed(windows)
    }

    constructor (maxKeys: nat)
      ensures Valid() && this.maxKeys == maxKeys && windows == [] && log == []
    {
      this.maxKeys := maxKeys;
      windows := [];
      log := [];
    }

    method Consume(key: Key, policy: Policy, now: int) returns (decision: Decision)
      requires Valid()
      modifies this
      ensures Valid()
      ensures (windows, decision) == RateLimitSpec.Consume(old(windows), maxKeys, Call(key, policy, now))
      ensures log == old(log) + [(key, now, decision.allowed)]
      ensures maxKeys >= 1 ==> |windows| <= maxKeys
    {
      ghost var call := Call(key, policy, now);
      EvictIfNeeded(now);

      var windowMs := policy.windowSeconds * 1000;
      var existing := Get(windows, key);
      var window := if existing.Some? && existing.value.expiresAt > now then existing.value
                    else Window(now + windowMs, 0);
      window := window.(count := window.count + 1);
      windows := Put(windows, key, window);

      var allowed := window.count <= policy.limit;
      var wait := (window.expiresAt - now + 999) / 1000;
      decision := Decision(allowed, if allowed then policy.limit - window.count else 0,
                           if wait > 1 then wait else 1, policy.limit);
      log := log + [(key, now, allowed)];
      ConsumeKeepsWellFormed(old(windows), maxKeys, call);
      if maxKeys >= 1 { ConsumeBoundsMemory(old(windows), maxKeys, call); }
    }

    method EvictIfNeeded(now: int)
      requires Valid()
      modifies this`windows
      ensures Valid()
      ensures windows == Evict(old(windows), maxKeys, now)
    {
      EvictShape(windows, maxKeys, now, "");
      if |windows| < maxKeys { return; }
      DeleteExpired(now);
      if |windows| < maxKeys { return; }
      DeleteOldest(|windows| - maxKeys + 1);
    }

    /** The first sweep: a window past its end would start afresh anyway. */
    method DeleteExpired(now: int)
      requires Valid()
      modifies this`windows
      ensures windows == OnlyLive(old(windows), now)
    {
      var entries := windows;
      var i := 0;
      while i < |entries|
        invariant 0 <= i <= |entries|
        invariant windows == OnlyLive(entries[..i], now) + entries[i..]
      {
        SweepStep(entries, i, now);
        if entries[i].1.expiresAt <= now {
          windows := Remove(windows, entries[i].0);
        }
        i := i + 1;
      }
      assert entries[..i] == entries;
    }

    method DeleteOldest(excess: nat)
      modifies this`windows
      ensures windows == if excess <= |old(windows)| then old(windows)[excess..] else []
    {
      var dropped := 0;
      while dropped < excess && windows != []
        invariant 0 <= dropped <= |old(windows)| && dropped <= excess
        invariant windows == old(windows)[dropped..]
        decreases |windows|
      {
        windows := Remove(windows, windows[0].0);
        dropped := dropped + 1;
      }
    }

    method Clear()
      modifies this`windows
      ensures windows == [] && Valid()
    {
      windows := [];
    }
  }

  lemma {:induction false} OnlyLiveSnoc(entries: Windows, i: nat, now: int)
    requires i < |entries|
    ensures OnlyLive(entries[..i + 1], now)
         == OnlyLive(entries[..i], now) + if entries[i].1.expiresAt <= now then [] else [entries[i]]
  {
    if i > 0 {
      assert entries[..i + 1][1..] == entries[1..][..i];
      assert entries[..i][1..] == entries[1..][..i - 1];
      OnlyLiveSnoc(entries[1..], i - 1, now);
    } else {
      assert entries[..1][1..] == [];
    }
  }

  /** One step of the sweep keeps the swept part live and the rest as it was. */
  lemma SweepStep(entries: Windows, i: nat, now: int)
    requires WellFormed(entries) && i < |entries|
    ensures var swept := OnlyLive(entries[..i], now) + entries[i..];
      (if entries[i].1.expiresAt <= now then Remove(swept, entries[i].0) else swept)
      == OnlyLive(entries[..i + 1], now) + entries[i + 1..]
  {
    var passed := OnlyLive(entries[..i], now);
    var swept := passed + entries[i..];
    OnlyLiveSnoc(entries, i, now);
    assert swept == passed + [entries[i]] + entries[i + 1..];
    if entries[i].1.expiresAt <= now {
      OnlyLiveShape(entries[..i], now, entries[i].0);
      RemoveMiddle(passed, entries[i], entries[i + 1..]);
    }
  }

  lemma {:induction false} RemoveMiddle(before: Windows, entry: (Key, Window), after: Windows)
    requires entry.0 !in Keys(before)
    ensures Remove(before + [entry] + after, entry.0) == before + after
  {
    var m := before + [entry] + after;
    if before == [] {
      assert m == [entry] + after;
    } else {
      KeysOfCons(before);
      assert m[1..] == before[1..] + [entry] + after;
      RemoveMiddle(before[1..], entry, after);
    }
  }
}

/** The throttle on recorded refusals, and exactly when it records one twice. */
module AuditThrottle {
  type Key = string

  datatype Refusal = Refusal(key: Key, windowMs: nat, now: int)

  predicate Recorded(audited: map<Key, int>, refusal: Refusal) {
    !(refusal.key in audited && refusal.now - audited[refusal.key] < refusal.windowMs)
  }

  /** The throttle after one refusal. A map that outgrows its bound is emptied whole. */
  function Record(audited: map<Key, int>, maxKeys: nat, refusal: Refusal): map<Key, int> {
    if !Recorded(audited, refusal) then audited
    else
      var next := audited[refusal.key := refusal.now];
      if |next| > maxKeys then map[] else next
  }

  function RecordAll(audited: map<Key, int>, maxKeys: nat, refusals: seq<Refusal>): map<Key, int>
    decreases |refusals|
  {
    if refusals == [] then audited
    else RecordAll(Record(audited, maxKeys, refusals[0]), maxKeys, refusals[1..])
  }

  /** Some refusal of the trace empties the throttle. */
  predicate Forgets(audited: map<Key, int>, maxKeys: nat, refusals: seq<Refusal>)
    decreases |refusals|
  {
    refusals != [] &&
    ((Recorded(audited, refusals[0]) && |audited[refusals[0].key := refusals[0].now]| > maxKeys)
     || Forgets(Record(audited, maxKeys, refusals[0]), maxKeys, refusals[1..]))
  }

  class Throttle {
    const maxKeys: nat
    var auditedKeys: map<Key, int>

    constructor (maxKeys: nat)
      ensures this.maxKeys == maxKeys && auditedKeys == map[]
    {
      this.maxKeys := maxKeys;
      auditedKeys := map[];
    }

    method RecordOnce(key: Key, windowMs: nat, now: int) returns (audit: bool)
      requires |auditedKeys| <= maxKeys
      modifies this
      ensures audit == Recorded(old(auditedKeys), Refusal(key, windowMs, now))
      ensures auditedKeys == Record(old(auditedKeys), maxKeys, Refusal(key, windowMs, now))
      ensures |auditedKeys| <= maxKeys
    {
      if key in auditedKeys && now - auditedKeys[key] < windowMs {
        return false;
      }
      auditedKeys := auditedKeys[key := now];
      if |auditedKeys| > maxKeys {
        auditedKeys := map[];
      }
      return true;
    }
  }

  /** Whatever other keys do inside its window, an audited key is audited again exactly
      when one of those refusals emptied the throttle. */
  lemma {:induction false} AuditedAgainIff(audited: map<Key, int>, maxKeys: nat, others: seq<Refusal>, again: Refusal)
    requires forall i :: 0 <= i < |others| ==> others[i].key != again.key
    requires again.key in audited && again.now - audited[again.key] < again.windowMs
    ensures Recorded(RecordAll(audited, maxKeys, others), again) <==> Forgets(audited, maxKeys, others)
    decreases |others|
  {
    if others != [] {
      var next := Record(audited, maxKeys, others[0]);
      assert forall i :: 0 <= i < |others[1..]| ==> others[1..][i] == others[i + 1];
      if again.key in next {
        AuditedAgainIff(next, maxKeys, others[1..], again);
      } else {
        AbsentStaysAbsent(next, maxKeys, others[1..], again.key);
      }
    }
  }

  lemma {:induction false} AbsentStaysAbsent(audited: map<Key, int>, maxKeys: nat, others: seq<Refusal>, key: Key)
    requires key !in audited && forall i :: 0 <= i < |others| ==> others[i].key != key
    ensures key !in RecordAll(audited, maxKeys, others)
    decreases |others|
  {
    if others != [] {
      assert forall i :: 0 <= i < |others[1..]| ==> others[1..][i] == others[i + 1];
      AbsentStaysAbsent(Record(audited, maxKeys, others[0]), maxKeys, others[1..], key);
    }
  }

  /** Outside its window nothing holds an audit back: a refusal of a key the throttle does
      not know, or one at or after the end of the key's window, is audited whatever other
      keys have done meanwhile. */
  lemma {:induction false} AuditedWhenDue(audited: map<Key, int>, maxKeys: nat, others: seq<Refusal>, due: Refusal)
    requires forall i :: 0 <= i < |others| ==> others[i].key != due.key
    requires due.key in audited ==> due.now >= audited[due.key] + due.windowMs
    ensures Recorded(RecordAll(audited, maxKeys, others), due)
    decreases |others|
  {
    if others != [] {
      assert forall i :: 0 <= i < |others[1..]| ==> others[1..][i] == others[i + 1];
      AuditedWhenDue(Record(audited, maxKeys, others[0]), maxKeys, others[1..], due);
    }
  }

  /** "One event per key per window" fails in one way: a newcomer to a full throttle wipes
      its own entry too, so its very next refusal is a second event. */
  lemma NewcomerAuditedTwiceIff(audited: map<Key, int>, maxKeys: nat, refusal: Refusal)
    requires refusal.key !in audited && refusal.windowMs > 0
    ensures Recorded(Record(audited, maxKeys, refusal), refusal) <==> |audited| >= maxKeys
  {
    var next := audited[refusal.key := refusal.now];
    assert next.Keys == audited.Keys + {refusal.key};
    assert |next.Keys| == |audited.Keys| + 1;
    assert |next| == |next.Keys| && |audited| == |audited.Keys|;
  }
}
