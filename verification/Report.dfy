/** The final report: per-client order statistics, and over all clients the first one that
    attains the largest of each. */
module Report {
  import opened Decimal
  import opened Counting

  predicate Ordered(s: seq<nat>) {
    forall i, j :: 0 <= i < j < |s| ==> s[i] <= s[j]
  }

  function Insert(x: nat, s: seq<nat>): (r: seq<nat>)
    ensures |r| == |s| + 1
  {
    if s == [] || s[|s| - 1] <= x then s + [x] else Insert(x, s[..|s| - 1]) + [s[|s| - 1]]
  }

  /** What sorting the samples leaves behind. */
  function Sort(s: seq<nat>): (r: seq<nat>)
    ensures |r| == |s|
  {
    if s == [] then [] else Insert(s[|s| - 1], Sort(s[..|s| - 1]))
  }

  lemma {:induction false} InsertContents(x: nat, s: seq<nat>)
    ensures multiset(Insert(x, s)) == multiset(s) + multiset{x}
  {
    if s != [] && s[|s| - 1] > x {
      var n := |s| - 1;
      InsertContents(x, s[..n]);
      assert s == s[..n] + [s[n]];
    }
  }

  /** Two sequences with the same contents have the same members. */
  lemma SameMembers(s: seq<nat>, t: seq<nat>, y: nat)
    requires multiset(s) == multiset(t)
    ensures y in s <==> y in t
  {
    assert y in s <==> y in multiset(s);
    assert y in t <==> y in multiset(t);
  }

  lemma OrderedAppend(s: seq<nat>, x: nat)
    requires Ordered(s) && forall k :: 0 <= k < |s| ==> s[k] <= x
    ensures Ordered(s + [x])
  {
  }

  lemma {:induction false} InsertOrdered(x: nat, s: seq<nat>)
    requires Ordered(s)
    ensures Ordered(Insert(x, s))
  {
    if s != [] && s[|s| - 1] > x {
      var n := |s| - 1;
      var r := Insert(x, s[..n]);
      InsertOrdered(x, s[..n]);
      InsertContents(x, s[..n]);
      forall k | 0 <= k < |r|
        ensures r[k] <= s[n]
      {
        SameMembers(r, s[..n] + [x], r[k]);
      }
      OrderedAppend(r, s[n]);
    }
  }

  /** Sorting orders the samples and keeps exactly them. */
  lemma {:induction false} SortIsPermutation(s: seq<nat>)
    ensures Ordered(Sort(s)) && multiset(Sort(s)) == multiset(s)
    ensures forall y :: y in Sort(s) <==> y in s
  {
    if s != [] {
      var n := |s| - 1;
      SortIsPermutation(s[..n]);
      InsertOrdered(s[n], Sort(s[..n]));
      InsertContents(s[n], Sort(s[..n]));
      assert s == s[..n] + [s[n]];
    }
    forall y: nat
      ensures y in Sort(s) <==> y in s
    {
      SameMembers(Sort(s), s, y);
    }
  }

  function AtMost(s: seq<nat>, x: nat): nat {
    if s == [] then 0 else AtMost(s[..|s| - 1], x) + (if s[|s| - 1] <= x then 1 else 0)
  }

  function AtLeast(s: seq<nat>, x: nat): nat {
    if s == [] then 0 else AtLeast(s[..|s| - 1], x) + (if s[|s| - 1] >= x then 1 else 0)
  }

  lemma {:induction false} InsertCounts(x: nat, s: seq<nat>, m: nat)
    ensures AtMost(Insert(x, s), m) == AtMost(s, m) + (if x <= m then 1 else 0)
    ensures AtLeast(Insert(x, s), m) == AtLeast(s, m) + (if x >= m then 1 else 0)
    ensures Sum(Insert(x, s)) == Sum(s) + x
  {
    var r := Insert(x, s);
    if s == [] || s[|s| - 1] <= x {
      assert r[..|r| - 1] == s;
    } else {
      InsertCounts(x, s[..|s| - 1], m);
      assert r[..|r| - 1] == Insert(x, s[..|s| - 1]);
    }
  }

  lemma {:induction false} SortCounts(s: seq<nat>, m: nat)
    ensures AtMost(Sort(s), m) == AtMost(s, m)
    ensures AtLeast(Sort(s), m) == AtLeast(s, m)
    ensures Sum(Sort(s)) == Sum(s)
  {
    if s != [] {
      SortCounts(s[..|s| - 1], m);
      InsertCounts(s[|s| - 1], Sort(s[..|s| - 1]), m);
    }
  }

  datatype Stats = Stats(max: nat, mid: nat, avg: nat, min: nat)

  /** The sum runs in the 64-bit sample type. */
  function Average(s: seq<nat>): nat
    requires s != []
  {
    Sum(s) % U64 / |s|
  }

  /** The four figures of one client. */
  function StatsOf(sorted: seq<nat>): Stats
    requires sorted != []
  {
    Stats(sorted[|sorted| - 1], sorted[|sorted| / 2], Average(sorted), sorted[0])
  }

  lemma {:induction false} OrderedAtMost(s: seq<nat>, k: nat)
    requires Ordered(s) && k < |s|
    ensures AtMost(s, s[k]) >= k + 1
  {
    var n := |s| - 1;
    if k < n {
      OrderedAtMost(s[..n], k);
    } else if n > 0 {
      OrderedAtMost(s[..n], n - 1);
      AtMostGrows(s[..n], s[n - 1], s[n]);
    }
  }

  lemma {:induction false} AtMostGrows(s: seq<nat>, x: nat, y: nat)
    requires x <= y
    ensures AtMost(s, x) <= AtMost(s, y)
  {
    if s != [] {
      AtMostGrows(s[..|s| - 1], x, y);
    }
  }

  lemma {:induction false} OrderedAtLeast(s: seq<nat>, k: nat)
    requires Ordered(s) && k < |s|
    ensures AtLeast(s, s[k]) >= |s| - k
  {
    var n := |s| - 1;
    if k < n {
      OrderedAtLeast(s[..n], k);
    }
  }

  lemma {:induction false} SumBetween(s: seq<nat>, low: nat, high: nat)
    requires forall k :: 0 <= k < |s| ==> low <= s[k] <= high
    ensures low * |s| <= Sum(s) <= high * |s|
  {
    if s != [] {
      var n := |s| - 1;
      SumBetween(s[..n], low, high);
      assert low * |s| == low * n + low;
      assert high * |s| == high * n + high;
    }
  }

  lemma Scale(x: nat, y: nat, n: nat)
    ensures x < y ==> x * n + n <= y * n
  {
    if x < y {
      assert (x + 1) * n <= y * n;
    }
  }

  lemma Quotient(x: nat, n: nat)
    requires n > 0
    ensures x / n * n <= x < x / n * n + n
  {
  }

  lemma AverageBetween(sum: nat, n: nat, low: nat, high: nat)
    requires n > 0 && low * n <= sum <= high * n
    ensures low <= sum / n <= high
  {
    Quotient(sum, n);
    Scale(sum / n, low, n);
    Scale(high, sum / n, n);
  }

  lemma DivisionGap(x: nat, y: nat, n: nat)
    requires n > 0 && x + n <= y
    ensures x / n < y / n
  {
    Quotient(x, n);
    Quotient(y, n);
    Scale(y / n, x / n + 1, n);
    Scale(y / n, x / n, n);
  }

  /** Minimum, median and maximum are samples; all samples lie between the extremes, more than
      half of them at or below the median and at least half at or above it. */
  lemma OrderStatistics(samples: seq<nat>)
    requires samples != []
    ensures var s := Sort(samples);
            var mid := s[|s| / 2];
            && s[0] in samples && mid in samples && s[|s| - 1] in samples
            && (forall y :: y in samples ==> s[0] <= y <= s[|s| - 1])
            && AtMost(samples, mid) >= |samples| / 2 + 1
            && AtLeast(samples, mid) >= |samples| - |samples| / 2
  {
    var s := Sort(samples);
    SortIsPermutation(samples);
    SortCounts(samples, s[|s| / 2]);
    OrderedAtMost(s, |s| / 2);
    OrderedAtLeast(s, |s| / 2);
    assert forall y :: y in samples ==> y in s;
    assert s[0] in s && s[|s| / 2] in s && s[|s| - 1] in s;
  }

  lemma WrappedAverage(sum: nat, n: nat, low: nat, high: nat)
    requires n > 0 && sum < U64 && low * n <= sum <= high * n
    ensures low <= sum % U64 / n <= high
  {
    assert sum % U64 == sum;
    AverageBetween(sum, n, low, high);
  }

  lemma WrappedQuotient(sum: nat, n: nat)
    requires 0 < n <= U64
    ensures sum % U64 / n == sum / n <==> sum < U64
  {
    if sum < U64 {
      assert sum % U64 == sum;
    } else {
      WrapLoses(sum);
      DivisionGap(sum % U64, sum, n);
    }
  }

  /** Without overflow the average lies between the extremes. */
  lemma AverageLies(samples: seq<nat>)
    requires samples != [] && Sum(samples) < U64
    ensures var s := Sort(samples);
            s[0] <= Average(s) <= s[|s| - 1]
  {
    var s := Sort(samples);
    SortIsPermutation(samples);
    SortCounts(samples, 0);
    SumBetween(s, s[0], s[|s| - 1]);
    WrappedAverage(Sum(s), |s|, s[0], s[|s| - 1]);
  }

  /** What a client's figures say about its samples, in whatever order those were taken. */
  lemma StatsMeaning(samples: seq<nat>)
    requires samples != []
    ensures var st := StatsOf(Sort(samples));
            && st.min in samples && st.mid in samples && st.max in samples
            && (forall y :: y in samples ==> st.min <= y <= st.max)
            && AtMost(samples, st.mid) >= |samples| / 2 + 1
            && AtLeast(samples, st.mid) >= |samples| - |samples| / 2
            && (Sum(samples) < U64 ==> st.min <= st.avg <= st.max)
  {
    OrderStatistics(samples);
    if Sum(samples) < U64 {
      AverageLies(samples);
    }
  }

  /** The reported average is the true one, rounded down, exactly while the sum of the samples
      fits the 64-bit type it is accumulated in. */
  lemma AverageIsTrue(samples: seq<nat>)
    requires 0 < |samples| <= U64
    ensures StatsOf(Sort(samples)).avg == Sum(samples) / |samples| <==> Sum(samples) < U64
    ensures StatsOf(Sort(samples)).avg == Sum(samples) % 0x1_0000_0000_0000_0000 / |samples|
  {
    SortCounts(samples, 0);
    WrappedQuotient(Sum(samples), |samples|);
  }

  lemma WrapLoses(sum: nat)
    requires sum >= U64
    ensures sum % U64 + U64 <= sum
  {
  }

  // ----- the best over all clients -----

  datatype Leader = Leader(value: nat, cid: string)

  /** The leader of a column is the first client attaining its maximum; a column of zeros has
      no leader. */
  predicate IsLeader(l: Leader, column: seq<nat>, cids: seq<string>)
    requires |column| == |cids|
  {
    && (forall k :: 0 <= k < |column| ==> column[k] <= l.value)
    && (l.value == 0 ==> l.cid == "")
    && (l.value > 0 ==>
          exists k :: 0 <= k < |column| && column[k] == l.value && cids[k] == l.cid
                      && forall j :: 0 <= j < k ==> column[j] < l.value)
  }

  datatype Summary = Summary(maxmax: Leader, maxmid: Leader, maxavg: Leader, maxmin: Leader)

  function Column(stats: seq<Stats>, f: Stats -> nat): seq<nat> {
    seq(|stats|, k requires 0 <= k < |stats| => f(stats[k]))
  }

  predicate IsSummary(r: Summary, stats: seq<Stats>, cids: seq<string>)
    requires |stats| == |cids|
  {
    && IsLeader(r.maxmax, Column(stats, (s: Stats) => s.max), cids)
    && IsLeader(r.maxmid, Column(stats, (s: Stats) => s.mid), cids)
    && IsLeader(r.maxavg, Column(stats, (s: Stats) => s.avg), cids)
    && IsLeader(r.maxmin, Column(stats, (s: Stats) => s.min), cids)
  }

  const NOBODY := Leader(0, "")

  /** One comparison of the report loop keeps the leader. */
  lemma LeaderStep(l: Leader, column: seq<nat>, cids: seq<string>, x: nat, cid: string)
    requires |column| == |cids| && IsLeader(l, column, cids)
    ensures IsLeader(Challenge(l, x, cid), column + [x], cids + [cid])
  {
    var c1, i1 := column + [x], cids + [cid];
    if l.value < x {
      assert c1[|column|] == x && i1[|column|] == cid;
    } else if l.value > 0 {
      var k :| 0 <= k < |column| && column[k] == l.value && cids[k] == l.cid
               && forall j :: 0 <= j < k ==> column[j] < l.value;
      assert c1[k] == l.value && i1[k] == l.cid;
    }
  }

  function Challenge(l: Leader, x: nat, cid: string): Leader {
    if l.value < x then Leader(x, cid) else l
  }

  lemma EmptySummary()
    ensures IsSummary(Summary(NOBODY, NOBODY, NOBODY, NOBODY), [], [])
  {
  }

  /** One client's turn in the report loop keeps the summary. */
  lemma SummaryStep(r: Summary, stats: seq<Stats>, cids: seq<string>, st: Stats, cid: string)
    requires |stats| == |cids| && IsSummary(r, stats, cids)
    ensures IsSummary(Summary(Challenge(r.maxmax, st.max, cid), Challenge(r.maxmid, st.mid, cid),
                              Challenge(r.maxavg, st.avg, cid), Challenge(r.maxmin, st.min, cid)),
                      stats + [st], cids + [cid])
  {
    ColumnStep(r.maxmax, stats, cids, (s: Stats) => s.max, st, cid);
    ColumnStep(r.maxmid, stats, cids, (s: Stats) => s.mid, st, cid);
    ColumnStep(r.maxavg, stats, cids, (s: Stats) => s.avg, st, cid);
    ColumnStep(r.maxmin, stats, cids, (s: Stats) => s.min, st, cid);
  }

  /** One client's four comparisons in the report loop. */
  method Compete(r: Summary, st: Stats, cid: string, ghost stats: seq<Stats>, ghost cids: seq<string>)
    returns (best: Summary)
    requires |stats| == |cids| && IsSummary(r, stats, cids)
    ensures IsSummary(best, stats + [st], cids + [cid])
  {
    var maxmax, maxmid, maxavg, maxmin := r.maxmax, r.maxmid, r.maxavg, r.maxmin;
    if maxmax.value < st.max {
      maxmax := Leader(st.max, cid);
    }
    if maxmid.value < st.mid {
      maxmid := Leader(st.mid, cid);
    }
    if maxavg.value < st.avg {
      maxavg := Leader(st.avg, cid);
    }
    if maxmin.value < st.min {
      maxmin := Leader(st.min, cid);
    }
    SummaryStep(r, stats, cids, st, cid);
    best := Summary(maxmax, maxmid, maxavg, maxmin);
  }

  lemma ColumnStep(l: Leader, stats: seq<Stats>, cids: seq<string>, f: Stats -> nat, st: Stats, cid: string)
    requires |stats| == |cids| && IsLeader(l, Column(stats, f), cids)
    ensures IsLeader(Challenge(l, f(st), cid), Column(stats + [st], f), cids + [cid])
  {
    LeaderStep(l, Column(stats, f), cids, f(st), cid);
    assert Column(stats + [st], f) == Column(stats, f) + [f(st)];
  }

  function StatsOfAll(samples: seq<seq<nat>>): seq<Stats>
    requires forall k :: 0 <= k < |samples| ==> samples[k] != []
  {
    seq(|samples|, k requires 0 <= k < |samples| => StatsOf(Sort(samples[k])))
  }

  lemma ColumnsCompare(samples: seq<seq<nat>>, k: nat)
    requires forall j :: 0 <= j < |samples| ==> samples[j] != []
    requires k < |samples|
    ensures var st := StatsOfAll(samples)[k];
            && st.max in samples[k]
            && (forall y :: y in samples[k] ==> y <= st.max)
            && st.min <= st.mid <= st.max && st.mid in samples[k]
            && AtMost(samples[k], st.mid) >= |samples[k]| / 2 + 1
            && AtLeast(samples[k], st.mid) >= |samples[k]| - |samples[k]| / 2
            && (Sum(samples[k]) < U64 ==> st.min <= st.avg <= st.max)
  {
    StatsMeaning(samples[k]);
  }

  /** The leader of the maxima attains the largest of all samples, and is the first client that has
      it. */
  lemma LargestSample(l: Leader, maxs: seq<nat>, samples: seq<seq<nat>>, cids: seq<string>)
    requires |samples| == |maxs| == |cids| > 0 && IsLeader(l, maxs, cids)
    requires forall k :: 0 <= k < |samples| ==> maxs[k] in samples[k]
    requires forall k, y :: 0 <= k < |samples| && y in samples[k] ==> y <= maxs[k]
    ensures forall k, y :: 0 <= k < |samples| && y in samples[k] ==> y <= l.value
    ensures exists k :: 0 <= k < |samples| && l.value in samples[k]
                        && (l.value > 0 ==> cids[k] == l.cid && FirstWith(samples, k, l.value))
  {
    forall k, y | 0 <= k < |samples| && y in samples[k]
      ensures y <= l.value
    {
      assert y <= maxs[k] <= l.value;
    }
    if l.value == 0 {
      LeaderAttained(l, maxs, cids);
    } else {
      var k :| 0 <= k < |maxs| && maxs[k] == l.value && cids[k] == l.cid
               && forall j :: 0 <= j < k ==> maxs[j] < l.value;
      assert l.value in samples[k] && FirstWith(samples, k, l.value);
    }
  }

  predicate FirstWith(samples: seq<seq<nat>>, k: nat, y: nat)
    requires k < |samples|
  {
    y in samples[k] && forall j :: 0 <= j < k ==> y !in samples[j]
  }

  /** What the summary says about all samples of all clients. */
  lemma SummaryMeaning(r: Summary, samples: seq<seq<nat>>, cids: seq<string>)
    requires |samples| == |cids| > 0
    requires forall k :: 0 <= k < |samples| ==> samples[k] != []
    requires IsSummary(r, StatsOfAll(samples), cids)
    ensures forall k, y :: 0 <= k < |samples| && y in samples[k] ==> y <= r.maxmax.value
    ensures exists k :: 0 <= k < |samples| && r.maxmax.value in samples[k]
                        && (r.maxmax.value > 0 ==>
                              cids[k] == r.maxmax.cid && FirstWith(samples, k, r.maxmax.value))
    ensures r.maxmin.value <= r.maxmid.value <= r.maxmax.value
    ensures (forall k :: 0 <= k < |samples| ==> Sum(samples[k]) < U64) ==>
              r.maxmin.value <= r.maxavg.value <= r.maxmax.value
  {
    hide IsLeader, StatsOf, Sort;
    var st := StatsOfAll(samples);
    var maxs, mids := Column(st, (s: Stats) => s.max), Column(st, (s: Stats) => s.mid);
    var avgs, mins := Column(st, (s: Stats) => s.avg), Column(st, (s: Stats) => s.min);
    forall k | 0 <= k < |samples|
      ensures maxs[k] in samples[k] && mins[k] <= mids[k] <= maxs[k]
      ensures forall y :: y in samples[k] ==> y <= maxs[k]
      ensures Sum(samples[k]) < U64 ==> mins[k] <= avgs[k] <= maxs[k]
    {
      ColumnsCompare(samples, k);
    }
    LargestSample(r.maxmax, maxs, samples, cids);
    LeaderBelow(r.maxmin, mins, r.maxmid, mids, cids);
    LeaderBelow(r.maxmid, mids, r.maxmax, maxs, cids);
    if forall k :: 0 <= k < |samples| ==> Sum(samples[k]) < U64 {
      LeaderBelow(r.maxmin, mins, r.maxavg, avgs, cids);
      LeaderBelow(r.maxavg, avgs, r.maxmax, maxs, cids);
    }
  }

  lemma LeaderAttained(l: Leader, column: seq<nat>, cids: seq<string>)
    requires |column| == |cids| > 0 && IsLeader(l, column, cids)
    ensures exists k :: 0 <= k < |column| && column[k] == l.value
  {
    if l.value == 0 {
      assert column[0] == 0;
    }
  }

  lemma LeaderBelow(l: Leader, low: seq<nat>, h: Leader, high: seq<nat>, cids: seq<string>)
    requires |low| == |high| == |cids| > 0
    requires IsLeader(l, low, cids) && IsLeader(h, high, cids)
    requires forall k :: 0 <= k < |low| ==> low[k] <= high[k]
    ensures l.value <= h.value
  {
    LeaderAttained(l, low, cids);
    var k :| 0 <= k < |low| && low[k] == l.value;
    assert high[k] <= h.value;
  }
}
