/** Latency histograms: fixed buckets filled one observation at a time, rendered cumulative. */
module Metrics {

  const BOUNDARIES: seq<real> := [0.05, 0.1, 0.25, 0.5, 1.0, 5.0, 10.0]

  datatype Histogram = Histogram(buckets: seq<nat>, sum: real, count: nat)

  const EMPTY := Histogram([0, 0, 0, 0, 0, 0, 0], 0.0, 0)

  /** The first boundary a value does not exceed. */
  function BucketOf(value: real, from: nat): (index: nat)
    requires from <= |BOUNDARIES|
    ensures from <= index <= |BOUNDARIES|
    ensures index < |BOUNDARIES| ==> value <= BOUNDARIES[index]
    ensures forall k :: from <= k < index ==> value > BOUNDARIES[k]
    decreases |BOUNDARIES| - from
  {
    if from == |BOUNDARIES| || value <= BOUNDARIES[from] then from else BucketOf(value, from + 1)
  }

  function Observed(h: Histogram, value: real): Histogram
    requires |h.buckets| == |BOUNDARIES|
  {
    var index := BucketOf(value, 0);
    Histogram(if index < |BOUNDARIES| then h.buckets[index := h.buckets[index] + 1]
        else h.buckets, h.sum + value, h.count + 1)
  }

  function ObserveAll(values: seq<real>): (h: Histogram)
    ensures |h.buckets| == |BOUNDARIES|
  {
    if values == [] then EMPTY else Observed(ObserveAll(values[..|values| - 1]), values[|values| - 1])
  }

  /** The running total a collector reads for a boundary. */
  function Cumulative(buckets: seq<nat>, upTo: nat): nat
    requires upTo < |buckets|
  {
    buckets[upTo] + if upTo == 0 then 0 else Cumulative(buckets, upTo - 1)
  }

  ghost function AtMost(values: seq<real>, boundary: real): nat {
    if values == [] then 0
    else AtMost(values[..|values| - 1], boundary) + if values[|values| - 1] <= boundary then 1 else 0
  }

  lemma {:induction false} OneMoreInBucket(buckets: seq<nat>, index: nat, upTo: nat)
    requires upTo < |buckets| && index < |buckets|
    ensures Cumulative(buckets[index := buckets[index] + 1], upTo)
         == Cumulative(buckets, upTo) + if index <= upTo then 1 else 0
  {
    if upTo > 0 { OneMoreInBucket(buckets, index, upTo - 1); }
  }

  lemma BoundariesRise(j: nat, k: nat)
    requires j <= k < |BOUNDARIES|
    ensures BOUNDARIES[j] <= BOUNDARIES[k]
  {
    assert forall i :: 0 <= i < |BOUNDARIES| - 1 ==> BOUNDARIES[i] < BOUNDARIES[i + 1];
  }

  lemma {:induction false} NothingCounted(upTo: nat)
    requires upTo < |BOUNDARIES|
    ensures Cumulative(EMPTY.buckets, upTo) == 0
  {
    if upTo > 0 { NothingCounted(upTo - 1); }
  }

  /** After any observations in any order, the figure rendered for a boundary is the number
      of observations at or below it, and the count, which the unbounded bucket shows, is
      all of them, however far above the last boundary. */
  lemma {:induction false} RenderedIsCumulative(values: seq<real>, k: nat)
    requires k < |BOUNDARIES|
    ensures Cumulative(ObserveAll(values).buckets, k) == AtMost(values, BOUNDARIES[k])
    ensures ObserveAll(values).count == |values|
  {
    if values == [] {
      NothingCounted(k);
    } else {
      var init, last := values[..|values| - 1], values[|values| - 1];
      RenderedIsCumulative(init, k);
      var before, index := ObserveAll(init), BucketOf(last, 0);
      if index < |BOUNDARIES| { OneMoreInBucket(before.buckets, index, k); }
      if index <= k { BoundariesRise(index, k); }
    }
  }

  ghost function Total(values: seq<real>): real {
    if values == [] then 0.0 else values[0] + Total(values[1..])
  }

  lemma {:induction false} TotalOfLast(init: seq<real>, last: real)
    ensures Total(init + [last]) == Total(init) + last
  {
    if init == [] {
      assert init + [last] == [last] && [last][1..] == [];
    } else {
      assert (init + [last])[1..] == init[1..] + [last];
      TotalOfLast(init[1..], last);
    }
  }

  /** And the sum is that of the observations, so that sum by count is their mean. */
  lemma {:induction false} SumIsTotal(values: seq<real>)
    ensures ObserveAll(values).sum == Total(values)
  {
    if values != [] {
      SumIsTotal(values[..|values| - 1]);
      TotalOfLast(values[..|values| - 1], values[|values| - 1]);
      assert values == values[..|values| - 1] + [values[|values| - 1]];
    }
  }

  method FindBucket(value: real) returns (index: nat)
    ensures index == BucketOf(value, 0)
  {
    index := 0;
    while index < |BOUNDARIES| && value > BOUNDARIES[index]
      invariant index <= |BOUNDARIES| && BucketOf(value, index) == BucketOf(value, 0)
    {
      index := index + 1;
    }
  }

  class MetricsService {
    var histograms: map<string, Histogram>

    constructor ()
      ensures histograms == map[]
    {
      histograms := map[];
    }

    /** Record one observation in a series, starting the series if it is new. */
    method Observe(key: string, value: real)
      requires key in histograms ==> |histograms[key].buckets| == |BOUNDARIES|
      modifies this
      ensures histograms == old(histograms)[key :=
              Observed(if key in old(histograms) then old(histograms)[key] else EMPTY, value)]
      ensures |histograms[key].buckets| == |BOUNDARIES|
    {
      var existing := if key in histograms then histograms[key] else EMPTY;
      var index := FindBucket(value);
      var buckets := if index < |BOUNDARIES| then existing.buckets[index := existing.buckets[index] + 1]
        else existing.buckets;
      histograms := histograms[key := Histogram(buckets, existing.sum + value, existing.count + 1)];
    }
  }
}
