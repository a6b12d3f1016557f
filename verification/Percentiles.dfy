/** Nearest-rank latency percentiles of a sorted sample, in exact arithmetic. */
module Percentiles {

  datatype LatencyPercentiles = LatencyPercentiles(p50: int, p95: int, p99: int, sampleCount: nat, windowMinutes: int)

  // The least whole number of samples that is at least `pct` percent of `n`.
  function Rank(pct: nat, n: nat): nat {
    (pct * n + 99) / 100
  }

  function Percentile(values: seq<int>, pct: nat): int
    requires values != []
  {
    var n := |values|;
    var rank := Rank(pct, n);
    var below := if rank > 0 then rank - 1 else 0;
    values[if below < n - 1 then below else n - 1]
  }

  function ComputePercentiles(rows: seq<int>, windowMinutes: int): LatencyPercentiles {
    if rows == [] then LatencyPercentiles(0, 0, 0, 0, windowMinutes)
    else LatencyPercentiles(Percentile(rows, 50), Percentile(rows, 95), Percentile(rows, 99), |rows|, windowMinutes)
  }

  predicate Sorted(values: seq<int>) {
    forall i, j | 0 <= i < j < |values| :: values[i] <= values[j]
  }

  function CountAtMost(values: seq<int>, v: int): nat {
    if values == [] then 0
    else CountAtMost(values[..|values| - 1], v) + if values[|values| - 1] <= v then 1 else 0
  }

  lemma {:induction false} CountSplit(values: seq<int>, v: int, k: nat)
    requires Sorted(values) && k <= |values|
    ensures (k > 0 ==> values[k - 1] <= v) ==> CountAtMost(values, v) >= k
    ensures (k < |values| ==> v < values[k]) ==> CountAtMost(values, v) <= k
  {
    var n := |values|;
    if n > 0 {
      var init := values[..n - 1];
      if k < n {
        CountSplit(init, v, k);
      } else {
        CountSplit(init, v, n - 1);
      }
    }
  }

  lemma ShareBounds(pct: nat, n: nat)
    requires 1 <= pct <= 100 && n >= 1
    ensures 1 <= pct * n <= 100 * n
  {
    assert (100 - pct) * n >= 0 && (pct - 1) * n >= 0;
  }

  lemma CeilingBounds(share: nat, n: nat)
    requires 1 <= share <= 100 * n
    ensures var rank := (share + 99) / 100;
            1 <= rank <= n && 100 * (rank - 1) < share <= 100 * rank
  {
  }

  lemma RankBounds(pct: nat, n: nat)
    requires 1 <= pct <= 100 && n >= 1
    ensures var rank := Rank(pct, n);
            1 <= rank <= n && 100 * (rank - 1) < pct * n <= 100 * rank
  {
    ShareBounds(pct, n);
    CeilingBounds(pct * n, n);
  }

  // Each percentile is the smallest sample value with at least that share of the samples at or below
  // it, and the clamps on its index are never needed.
  lemma PercentileIsNearestRank(values: seq<int>, pct: nat)
    requires Sorted(values) && values != [] && 1 <= pct <= 100
    ensures 1 <= Rank(pct, |values|) <= |values|
    ensures var v := Percentile(values, pct);
            && v in values
            && 100 * CountAtMost(values, v) >= pct * |values|
            && forall u :: 100 * CountAtMost(values, u) >= pct * |values| ==> v <= u
  {
    var n := |values|;
    var rank := Rank(pct, n);
    RankBounds(pct, n);
    hide Rank;
    var v := Percentile(values, pct);
    assert v == values[rank - 1];
    CountSplit(values, v, rank);
    forall u | u < v
      ensures 100 * CountAtMost(values, u) < pct * n
    {
      CountSplit(values, u, rank - 1);
    }
  }

  // The positions of the sample whose value is at most `v`.
  function AtMostSet(values: seq<int>, v: int): set<nat> {
    set i | 0 <= i < |values| && values[i] <= v
  }

  lemma {:induction false} CountIsCard(values: seq<int>, v: int)
    ensures CountAtMost(values, v) == |AtMostSet(values, v)|
  {
    if values != [] {
      var n := |values| - 1;
      CountIsCard(values[..n], v);
      var init := AtMostSet(values[..n], v);
      assert AtMostSet(values, v) == if values[n] <= v then init + {n} else init;
    }
  }

  // `r` is a value of the sample with at least `pct` percent of the sample at or below it, and the least such.
  ghost predicate NearestRank(values: seq<int>, pct: nat, r: int) {
    && r in values
    && 100 * |AtMostSet(values, r)| >= pct * |values|
    && forall u | u in values && 100 * |AtMostSet(values, u)| >= pct * |values| :: r <= u
  }

  // The three percentiles, the size of the sample and the window, each in its field; zeros for no sample.
  lemma EachPercentile(rows: seq<int>, windowMinutes: int)
    requires Sorted(rows)
    ensures var p := ComputePercentiles(rows, windowMinutes);
            && p.sampleCount == |rows| && p.windowMinutes == windowMinutes
            && (rows == [] ==> p.p50 == 0 && p.p95 == 0 && p.p99 == 0)
            && (rows != [] ==> NearestRank(rows, 50, p.p50) && NearestRank(rows, 95, p.p95) && NearestRank(rows, 99, p.p99))
  {
    hide Percentile, Rank, Sorted, AtMostSet, CountAtMost;
    forall v { CountIsCard(rows, v); }
    if rows != [] {
      PercentileIsNearestRank(rows, 50);
      PercentileIsNearestRank(rows, 95);
      PercentileIsNearestRank(rows, 99);
    }
  }

  lemma PercentilesOrdered(rows: seq<int>, windowMinutes: int)
    requires Sorted(rows)
    ensures var p := ComputePercentiles(rows, windowMinutes); p.p50 <= p.p95 <= p.p99
  {
    if rows != [] {
      PercentileIsNearestRank(rows, 50);
      PercentileIsNearestRank(rows, 95);
      PercentileIsNearestRank(rows, 99);
    }
  }
}
