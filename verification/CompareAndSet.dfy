/** The conditional write every repository uses: it lands only on the version it was based
    on. Any number of callers, their reads and writes interleaved in any order. */
module CompareAndSet {

  datatype Stored<V> = Stored(version: nat, value: V)

  /** A write based on a version the caller read, or one that does not ask. */
  datatype Write<V> = IfAt(expected: nat, value: V) | Always(value: V)

  predicate Lands<V>(now: Stored<V>, write: Write<V>) {
    write.Always? || write.expected == now.version
  }

  function After<V>(now: Stored<V>, write: Write<V>): Stored<V> {
    if Lands(now, write) then Stored(now.version + 1, write.value) else now
  }

  function Play<V>(now: Stored<V>, writes: seq<Write<V>>): Stored<V>
    decreases |writes|
  {
    if writes == [] then now else Play(After(now, writes[0]), writes[1..])
  }

  /** What the k-th write finds. */
  function Found<V>(now: Stored<V>, writes: seq<Write<V>>, k: nat): Stored<V>
    requires k <= |writes|
  {
    Play(now, writes[..k])
  }

  predicate Wins<V>(now: Stored<V>, writes: seq<Write<V>>, k: nat)
    requires k < |writes|
  {
    Lands(Found(now, writes, k), writes[k])
  }

  lemma {:induction false} PlayLast<V>(now: Stored<V>, writes: seq<Write<V>>)
    requires writes != []
    ensures Play(now, writes) == After(Play(now, writes[..|writes| - 1]), writes[|writes| - 1])
    decreases |writes|
  {
    var last := |writes| - 1;
    if last > 0 {
      PlayLast(After(now, writes[0]), writes[1..]);
      assert writes[1..][..last - 1] == writes[..last][1..];
    }
  }

  lemma FoundNext<V>(now: Stored<V>, writes: seq<Write<V>>, k: nat)
    requires k < |writes|
    ensures Found(now, writes, k + 1) == After(Found(now, writes, k), writes[k])
  {
    PlayLast(now, writes[..k + 1]);
    assert writes[..k + 1][..k] == writes[..k];
  }

  /** The writes that landed from the i-th up to the j-th. */
  ghost function Landed<V>(now: Stored<V>, writes: seq<Write<V>>, i: nat, j: nat): set<nat>
    requires j <= |writes|
  {
    set k: nat | i <= k < j && Wins(now, writes, k)
  }

  /** The version counts the writes that landed, and never goes back. */
  lemma {:induction false} VersionCountsWins<V>(now: Stored<V>, writes: seq<Write<V>>, i: nat, j: nat)
    requires i <= j <= |writes|
    ensures Found(now, writes, j).version
         == Found(now, writes, i).version + |Landed(now, writes, i, j)|
    decreases j
  {
    if i < j {
      VersionCountsWins(now, writes, i, j - 1);
      FoundNext(now, writes, j - 1);
      var before, upTo := Landed(now, writes, i, j - 1), Landed(now, writes, i, j);
      if Wins(now, writes, j - 1) { assert upTo == before + {j - 1}; } else { assert upTo == before; }
    }
  }

  /** Of all the conditional writes based on one version, in any interleaving, at most one
      lands; and winners land in the order of the versions they were based on. */
  lemma WinnersAreSerial<V>(now: Stored<V>, writes: seq<Write<V>>, i: nat, j: nat)
    requires i < j < |writes| && writes[i].IfAt? && writes[j].IfAt?
    requires Wins(now, writes, i) && Wins(now, writes, j)
    ensures writes[i].expected < writes[j].expected
  {
    FoundNext(now, writes, i);
    VersionCountsWins(now, writes, i + 1, j);
  }

  /** A conditional write made on what was stored at step i wins at step j exactly when no
      other write landed in between; then it replaces the very value it was based on. */
  lemma WinsIffUndisturbed<V>(now: Stored<V>, writes: seq<Write<V>>, i: nat, j: nat)
    requires i <= j < |writes| && writes[j].IfAt? && writes[j].expected == Found(now, writes, i).version
    ensures Wins(now, writes, j) <==> forall k :: i <= k < j ==> !Wins(now, writes, k)
    ensures Wins(now, writes, j) ==> Found(now, writes, j) == Found(now, writes, i)
  {
    VersionCountsWins(now, writes, i, j);
    var landed := Landed(now, writes, i, j);
    if Wins(now, writes, j) {
      assert landed == {};
      forall k | i <= k < j ensures !Wins(now, writes, k) { assert k !in landed; }
      NothingLanded(now, writes, i, j);
    } else {
      assert landed != {};
    }
  }

  lemma {:induction false} NothingLanded<V>(now: Stored<V>, writes: seq<Write<V>>, i: nat, j: nat)
    requires i <= j <= |writes| && forall k :: i <= k < j ==> !Wins(now, writes, k)
    ensures Found(now, writes, j) == Found(now, writes, i)
    decreases j
  {
    if i < j {
      NothingLanded(now, writes, i, j - 1);
      assert !Wins(now, writes, j - 1);
      FoundNext(now, writes, j - 1);
    }
  }
}
