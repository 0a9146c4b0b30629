/** Regenerating a list document conserves what people decided. */
module RowRegeneration {
  import opened Wrappers
  import opened OrderedMap
  import opened DocumentContent

  /** What a person put into a row: regeneration owes exactly this back. */
  datatype Human = Human(origin: RowOrigin, attribution: string, payload: Payload, excludedReason: string)

  ghost function HumanOf(row: Row): Human {
    Human(row.origin, row.attribution, row.payload, row.excludedReason)
  }

  ghost function HumanRows(rows: seq<Row>): multiset<Human> {
    if rows == [] then multiset{}
    else (if IsRowProtected(rows[0].origin) then multiset{HumanOf(rows[0])} else multiset{}) + HumanRows(rows[1..])
  }

  ghost predicate DistinctKeys(rows: seq<Row>) {
    forall i, j :: 0 <= i < j < |rows| ==> RowKey(rows[i].payload) != RowKey(rows[j].payload)
  }

  ghost predicate AllProtected(rows: seq<Row>) {
    forall i :: 0 <= i < |rows| ==> IsRowProtected(rows[i].origin)
  }

  ghost function ComposedKeys(composed: seq<ComposedRow>): set<string> {
    set i | 0 <= i < |composed| :: RowKey(composed[i].payload)
  }

  /* ----------------------------------------------------- counting human rows */

  lemma {:induction false} HumanRowsConcat(a: seq<Row>, b: seq<Row>)
    ensures HumanRows(a + b) == HumanRows(a) + HumanRows(b)
  {
    if a == [] {
      assert a + b == b;
    } else {
      assert (a + b)[1..] == a[1..] + b;
      HumanRowsConcat(a[1..], b);
    }
  }

  lemma {:induction false} ProtectedAreProtected(rows: seq<Row>)
    ensures AllProtected(Protected(rows))
  {
    if rows != [] {
      var rest := Protected(rows[1..]);
      ProtectedAreProtected(rows[1..]);
      if IsRowProtected(rows[0].origin) {
        assert forall i :: 1 <= i < |Protected(rows)| ==> Protected(rows)[i] == rest[i - 1];
      } else {
        assert Protected(rows) == rest;
      }
    }
  }

  lemma {:induction false} ProtectedHumans(rows: seq<Row>)
    ensures HumanRows(Protected(rows)) == HumanRows(rows) && |HumanRows(rows)| == |Protected(rows)|
  {
    if rows != [] {
      var rest := Protected(rows[1..]);
      ProtectedHumans(rows[1..]);
      if IsRowProtected(rows[0].origin) {
        assert Protected(rows) == [rows[0]] + rest;
        assert ([rows[0]] + rest)[1..] == rest;
      } else {
        assert Protected(rows) == rest;
      }
    }
  }

  lemma {:induction false} ValuesLength(m: ByKey)
    ensures |Values(m)| == |m|
  {
    if m != [] { ValuesLength(m[1..]); }
  }

  lemma {:induction false} RemoveTakesOne(m: ByKey, key: string)
    ensures HumanRows(Values(m)) == HumanRows(Values(Remove(m, key)))
              + if Get(m, key).Some? then HumanRows([Get(m, key).value]) else multiset{}
  {
    if m != [] {
      assert Values(m)[1..] == Values(m[1..]);
      if m[0].0 == key {
        assert [m[0].1][1..] == [];
      } else {
        RemoveTakesOne(m[1..], key);
        assert Remove(m, key)[1..] == Remove(m[1..], key);
        assert Values(Remove(m, key))[1..] == Values(Remove(m[1..], key));
      }
    }
  }

  ghost predicate TableOfHumans(m: ByKey) {
    && Distinct(m)
    && forall i :: 0 <= i < |m| ==> m[i].0 == RowKey(m[i].1.payload) && IsRowProtected(m[i].1.origin)
  }

  lemma {:induction false} RemoveKeepsTable(m: ByKey, key: string)
    requires TableOfHumans(m)
    ensures TableOfHumans(Remove(m, key)) && Keys(Remove(m, key)) == Keys(m) - {key}
  {
    var r := Remove(m, key);
    GetOfRemove(m, key, key);
    forall i | 0 <= i < |r| ensures r[i].0 == RowKey(r[i].1.payload) && IsRowProtected(r[i].1.origin) {
      GetAt(r, i);
      GetOfRemove(m, key, r[i].0);
      GetFinds(m, r[i].0);
    }
  }

  /* ------------------------------------------- each composed row, and the rest */

  /** What the merge makes of the i-th composed row: the person's row with the new text
      waiting, or the new row. Nothing composed is lost either way. */
  ghost predicate Placed(row: Row, composed: ComposedRow) {
    && row.references == composed.references
    && if IsRowProtected(row.origin)
       then row.proposed == Some(composed.payload) && RowKey(row.payload) == RowKey(composed.payload)
       else row == NewRow(composed, row.id)
  }

  lemma {:induction false} FillLeaves(composed: seq<ComposedRow>, byKey: ByKey, nextId: nat)
    requires TableOfHumans(byKey)
    ensures |Fill(composed, byKey, nextId).0| == |composed|
    ensures TableOfHumans(Fill(composed, byKey, nextId).1)
    ensures Keys(Fill(composed, byKey, nextId).1) == Keys(byKey) - ComposedKeys(composed)
  {
    if composed != [] {
      var key := RowKey(composed[0].payload);
      RemoveKeepsTable(byKey, key);
      FillLeaves(composed[1..], Remove(byKey, key), nextId + 1);
      ComposedKeysCons(composed);
    } else {
      assert ComposedKeys(composed) == {};
    }
  }

  /** The table entry a composed row takes is a person's row of the same key. */
  lemma TakenRow(byKey: ByKey, key: string)
    requires TableOfHumans(byKey) && Get(byKey, key).Some?
    ensures var row := Get(byKey, key).value; RowKey(row.payload) == key && IsRowProtected(row.origin)
  {
    GetFinds(byKey, key);
    var i :| 0 <= i < |byKey| && byKey[i] == (key, Get(byKey, key).value);
  }

  lemma {:induction false} FillPlaces(composed: seq<ComposedRow>, byKey: ByKey, nextId: nat, i: nat)
    requires TableOfHumans(byKey) && i < |composed|
    ensures |Fill(composed, byKey, nextId).0| == |composed|
    ensures Placed(Fill(composed, byKey, nextId).0[i], composed[i])
  {
    var key := RowKey(composed[0].payload);
    FillLeaves(composed, byKey, nextId);
    if i == 0 {
      if Get(byKey, key).Some? { TakenRow(byKey, key); }
    } else {
      RemoveKeepsTable(byKey, key);
      FillPlaces(composed[1..], Remove(byKey, key), nextId + 1, i - 1);
      assert composed[1..][i - 1] == composed[i];
    }
  }

  lemma {:induction false} FillConserves(composed: seq<ComposedRow>, byKey: ByKey, nextId: nat)
    requires TableOfHumans(byKey)
    ensures HumanRows(Fill(composed, byKey, nextId).0) + HumanRows(Values(Fill(composed, byKey, nextId).1))
         == HumanRows(Values(byKey))
  {
    if composed != [] {
      var key := RowKey(composed[0].payload);
      var next := Remove(byKey, key);
      RemoveKeepsTable(byKey, key);
      RemoveTakesOne(byKey, key);
      FillConserves(composed[1..], next, nextId + 1);
      var rows, rest := Fill(composed, byKey, nextId).0, Fill(composed[1..], next, nextId + 1).0;
      assert rows == [rows[0]] + rest;
      HumanRowsConcat([rows[0]], rest);
      if Get(byKey, key).Some? {
        TakenRow(byKey, key);
        SameHuman(rows[0], Get(byKey, key).value);
      } else {
        OneHuman(rows[0]);
      }
    }
  }

  lemma OneHuman(row: Row)
    ensures HumanRows([row]) == if IsRowProtected(row.origin) then multiset{HumanOf(row)} else multiset{}
  {
    assert [row][1..] == [];
  }

  lemma SameHuman(a: Row, b: Row)
    requires HumanOf(a) == HumanOf(b)
    ensures HumanRows([a]) == HumanRows([b])
  {
    OneHuman(a);
    OneHuman(b);
  }

  lemma ComposedKeysCons(composed: seq<ComposedRow>)
    requires composed != []
    ensures ComposedKeys(composed) == {RowKey(composed[0].payload)} + ComposedKeys(composed[1..])
  {
    forall k | k in ComposedKeys(composed) ensures k in {RowKey(composed[0].payload)} + ComposedKeys(composed[1..]) {
      var i :| 0 <= i < |composed| && RowKey(composed[i].payload) == k;
      if i > 0 { assert composed[1..][i - 1] == composed[i]; }
    }
    forall k | k in ComposedKeys(composed[1..]) ensures k in ComposedKeys(composed) {
      var i :| 0 <= i < |composed[1..]| && RowKey(composed[1..][i].payload) == k;
      assert composed[i + 1] == composed[1..][i];
    }
  }

  lemma {:induction false} OrphansShape(left: ByKey, nextId: nat)
    requires TableOfHumans(left)
    ensures var rows := Orphans(left, nextId);
      && |rows| == |left| && HumanRows(rows) == HumanRows(Values(left))
      && (forall i :: 0 <= i < |rows| ==> rows[i] == Orphan(left[i].1, nextId + i))
  {
    if left != [] {
      var tail := left[1..];
      assert forall i :: 0 <= i < |tail| ==> tail[i] == left[i + 1];
      OrphansShape(tail, nextId + 1);
      var rows := Orphans(left, nextId);
      assert rows[1..] == Orphans(tail, nextId + 1);
      assert Values(left)[1..] == Values(tail);
      assert forall i :: 1 <= i < |rows| ==> rows[i] == rows[1..][i - 1];
    }
  }

  ghost function RowKeys(rows: seq<Row>): set<string> {
    set i | 0 <= i < |rows| :: RowKey(rows[i].payload)
  }

  lemma RowKeysOfLast(init: seq<Row>, last: Row)
    ensures RowKeys(init + [last]) == RowKeys(init) + {RowKey(last.payload)}
  {
    var rows := init + [last];
    forall k | k in RowKeys(rows) ensures k in RowKeys(init) + {RowKey(last.payload)} {
      var i :| 0 <= i < |rows| && RowKey(rows[i].payload) == k;
      if i < |init| { assert init[i] == rows[i]; }
    }
    forall k | k in RowKeys(init) ensures k in RowKeys(rows) {
      var i :| 0 <= i < |init| && RowKey(init[i].payload) == k;
      assert rows[i] == init[i];
    }
    assert rows[|init|] == last;
  }

  lemma {:induction false} TableFromRows(rows: seq<Row>)
    requires AllProtected(rows)
    ensures TableOfHumans(KeepByKey(rows))
    ensures Keys(KeepByKey(rows)) == RowKeys(rows)
  {
    KeepByKeyShape(rows);
    TableKeys(rows);
  }

  lemma {:induction false} TableKeys(rows: seq<Row>)
    ensures Keys(KeepByKey(rows)) == RowKeys(rows)
  {
    if rows != [] {
      var init, last := rows[..|rows| - 1], rows[|rows| - 1];
      TableKeys(init);
      KeepByKeyShape(init);
      PutShape(KeepByKey(init), RowKey(last.payload), last);
      RowKeysOfLast(init, last);
      assert rows == init + [last];
    }
  }

  /** The table holds every row once if their keys differ, and has lost one if not. */
  lemma {:induction false} TableKeepsAll(rows: seq<Row>)
    requires AllProtected(rows) && DistinctKeys(rows)
    ensures Values(KeepByKey(rows)) == rows
  {
    if rows != [] {
      var init, last := rows[..|rows| - 1], rows[|rows| - 1];
      assert forall i :: 0 <= i < |init| ==> init[i] == rows[i];
      TableKeepsAll(init);
      TableFromRows(init);
      PutAppends(KeepByKey(init), RowKey(last.payload), last);
      assert rows == init + [last];
    }
  }

  lemma {:induction false} TableLosesOne(rows: seq<Row>)
    requires AllProtected(rows) && !DistinctKeys(rows)
    ensures |KeepByKey(rows)| < |rows|
  {
    var init, last := rows[..|rows| - 1], rows[|rows| - 1];
    var key := RowKey(last.payload);
    assert forall i :: 0 <= i < |init| ==> init[i] == rows[i];
    TableFromRows(init);
    KeepByKeyShape(init);
    PutShape(KeepByKey(init), key, last);
    if !DistinctKeys(init) {
      TableLosesOne(init);
    } else {
      assert rows == init + [last];
      RepeatedLast(init, last);
    }
  }

  lemma RepeatedLast(init: seq<Row>, last: Row)
    requires DistinctKeys(init) && !DistinctKeys(init + [last])
    ensures RowKey(last.payload) in RowKeys(init)
  {
    var rows := init + [last];
    var i, j :| 0 <= i < j < |rows| && RowKey(rows[i].payload) == RowKey(rows[j].payload);
    if j < |init| { assert false; }
    assert rows[i] == init[i];
  }

  lemma {:induction false} PutAppends(m: ByKey, key: string, row: Row)
    requires key !in Keys(m)
    ensures Values(Put(m, key, row)) == Values(m) + [row]
  {
    if m == [] {
      assert Put(m, key, row)[1..] == [];
    } else {
      KeysOfCons(m);
      PutAppends(m[1..], key, row);
      assert Put(m, key, row)[1..] == Put(m[1..], key, row);
    }
  }

  /* ------------------------------------------------------------ main results */

  lemma RegeneratedHumans(composed: seq<ComposedRow>, previous: seq<Row>, nextId: nat)
    ensures HumanRows(BuildRows(composed, previous, nextId)) == HumanRows(Values(KeepByKey(Protected(previous))))
  {
    var kept := Protected(previous);
    ProtectedAreProtected(previous);
    TableFromRows(kept);
    MergedHumans(composed, KeepByKey(kept), nextId);
  }

  lemma MergedHumans(composed: seq<ComposedRow>, byKey: ByKey, nextId: nat)
    requires TableOfHumans(byKey)
    ensures HumanRows(Fill(composed, byKey, nextId).0 + Orphans(Fill(composed, byKey, nextId).1, nextId + |composed|))
         == HumanRows(Values(byKey))
  {
    FillConserves(composed, byKey, nextId);
    FillLeaves(composed, byKey, nextId);
    JoinedHumans(Fill(composed, byKey, nextId).0, Fill(composed, byKey, nextId).1, nextId + |composed|);
  }

  lemma JoinedHumans(rows: seq<Row>, left: ByKey, nextId: nat)
    requires TableOfHumans(left)
    ensures HumanRows(rows + Orphans(left, nextId)) == HumanRows(rows) + HumanRows(Values(left))
  {
    OrphansShape(left, nextId);
    HumanRowsConcat(rows, Orphans(left, nextId));
  }

  /** Regeneration gives every person's row back exactly once, words, origin, attribution
      and exclusion untouched, if and only if the protected rows have distinct keys. */
  lemma RegenerationConservesHumansIff(composed: seq<ComposedRow>, previous: seq<Row>, nextId: nat)
    ensures HumanRows(BuildRows(composed, previous, nextId)) == HumanRows(previous)
       <==> DistinctKeys(Protected(previous))
  {
    var kept := Protected(previous);
    ProtectedHumans(previous);
    ProtectedAreProtected(previous);
    RegeneratedHumans(composed, previous, nextId);
    if DistinctKeys(kept) {
      TableKeepsAll(kept);
    } else {
      TableLosesOne(kept);
      ValuesLength(KeepByKey(kept));
      AllCounted(Values(KeepByKey(kept)));
    }
  }

  lemma {:induction false} AllCounted(rows: seq<Row>)
    ensures |HumanRows(rows)| <= |rows|
  {
    if rows != [] { AllCounted(rows[1..]); }
  }

  lemma MergedShape(composed: seq<ComposedRow>, previous: seq<Row>, nextId: nat) returns (left: ByKey)
    ensures left == Fill(composed, KeepByKey(Protected(previous)), nextId).1
    ensures TableOfHumans(left)
    ensures Keys(left) == RowKeys(Protected(previous)) - ComposedKeys(composed)
    ensures |BuildRows(composed, previous, nextId)| == |composed| + |left|
  {
    var kept := Protected(previous);
    ProtectedAreProtected(previous);
    TableFromRows(kept);
    FillLeaves(composed, KeepByKey(kept), nextId);
    left := Fill(composed, KeepByKey(kept), nextId).1;
    OrphansShape(left, nextId + |composed|);
  }

  lemma PlacedRow(composed: seq<ComposedRow>, previous: seq<Row>, nextId: nat, i: nat)
    requires i < |composed|
    ensures |BuildRows(composed, previous, nextId)| >= |composed|
    ensures Placed(BuildRows(composed, previous, nextId)[i], composed[i])
  {
    ProtectedAreProtected(previous);
    TableFromRows(Protected(previous));
    FillPlaces(composed, KeepByKey(Protected(previous)), nextId, i);
  }

  /** Where each row of the result comes from: the first |composed| rows stand for the
      composed ones, the rest for the human rows the composition did not produce. */
  lemma RegeneratedRows(composed: seq<ComposedRow>, previous: seq<Row>, nextId: nat)
    ensures |BuildRows(composed, previous, nextId)|
         == |composed| + |RowKeys(Protected(previous)) - ComposedKeys(composed)|
    ensures forall i :: 0 <= i < |composed| ==> Placed(BuildRows(composed, previous, nextId)[i], composed[i])
  {
    var left := MergedShape(composed, previous, nextId);
    KeysCount(left);
    forall i | 0 <= i < |composed| ensures Placed(BuildRows(composed, previous, nextId)[i], composed[i]) {
      PlacedRow(composed, previous, nextId, i);
    }
  }

  /** A human row of the result carries a proposal exactly when the composition produced
      its key; a row nobody wrote never does. */
  lemma ProposalIffComposed(composed: seq<ComposedRow>, previous: seq<Row>, nextId: nat, i: nat)
    requires i < |BuildRows(composed, previous, nextId)|
    ensures var row := BuildRows(composed, previous, nextId)[i];
      row.proposed.Some? <==> IsRowProtected(row.origin) && RowKey(row.payload) in ComposedKeys(composed)
  {
    if i < |composed| {
      PlacedRow(composed, previous, nextId, i);
    } else {
      TrailingRow(composed, previous, nextId, i);
    }
  }

  lemma TrailingRow(composed: seq<ComposedRow>, previous: seq<Row>, nextId: nat, i: nat)
    requires |composed| <= i < |BuildRows(composed, previous, nextId)|
    ensures var row := BuildRows(composed, previous, nextId)[i];
      row.proposed == None && RowKey(row.payload) !in ComposedKeys(composed)
  {
    var left := TrailingIsOrphan(composed, previous, nextId, i);
    OrphanRow(left, nextId + |composed|, i - |composed|);
  }

  lemma TrailingIsOrphan(composed: seq<ComposedRow>, previous: seq<Row>, nextId: nat, i: nat) returns (left: ByKey)
    requires |composed| <= i < |BuildRows(composed, previous, nextId)|
    ensures TableOfHumans(left) && Keys(left) !! ComposedKeys(composed)
    ensures i - |composed| < |Orphans(left, nextId + |composed|)|
    ensures BuildRows(composed, previous, nextId)[i] == Orphans(left, nextId + |composed|)[i - |composed|]
  {
    ProtectedAreProtected(previous);
    TableFromRows(Protected(previous));
    FillLeaves(composed, KeepByKey(Protected(previous)), nextId);
    left := Fill(composed, KeepByKey(Protected(previous)), nextId).1;
  }

  lemma OrphanRow(left: ByKey, nextId: nat, i: nat)
    requires TableOfHumans(left) && i < |Orphans(left, nextId)|
    ensures var row := Orphans(left, nextId)[i];
      IsRowProtected(row.origin) && row.proposed == None && RowKey(row.payload) in Keys(left)
  {
    OrphansShape(left, nextId);
    assert left[i].0 in Keys(left);
  }

  lemma {:induction false} KeysCount(m: ByKey)
    requires Distinct(m)
    ensures |Keys(m)| == |m|
  {
    if m != [] {
      KeysOfCons(m);
      KeysCount(m[1..]);
      assert m[0].0 !in Keys(m[1..]);
    } else {
      assert Keys(m) == {};
    }
  }
}
