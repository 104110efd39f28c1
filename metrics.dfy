/**
 * The admin metrics page of pages/admin/metrics.tsx: `fetchMetrics` folds
 * the `transactions` rows into a total revenue, groups it by calendar day
 * into `revenueByDay`, turns that into the chart's points, and counts the
 * listings and users.
 */
module AdminMetrics {
  import opened Shared

  /** Milliseconds in a UTC day. */
  const MsPerDay: int := 86400000

  /**
   * A `transactions` row as the page reads it: `purchase_price` may be
   * missing, and `purchased_at` is its time in milliseconds since the epoch.
   */
  datatype Transaction = Transaction(buyerId: string, listingId: string, purchasePrice: Option<int>,
                                     purchasedAt: int)

  /** `t.purchase_price || 0`: a missing price counts as 0. */
  function Price(t: Transaction): int {
    if t.purchasePrice.Some? then t.purchasePrice.value else 0
  }

  predicate Priced(t: Transaction) {
    t.purchasePrice.Some?
  }

  /**
   * `new Date(ms).toISOString().split('T')[0]`: the UTC calendar day of an
   * instant, numbered from the epoch. Instants before the epoch fall on
   * the day that starts at or before them.
   */
  function Day(ms: int): int {
    ms / MsPerDay
  }

  /** The day of `ms` is the one whose span of `MsPerDay` milliseconds holds it. */
  lemma DayBounds(ms: int)
    ensures MsPerDay * Day(ms) <= ms < MsPerDay * (Day(ms) + 1)
  {
  }

  /** `transactions.reduce((sum, t) => sum + (t.purchase_price || 0), 0)`. */
  function Revenue(ts: seq<Transaction>): (r: int)
    ensures (forall k :: 0 <= k < |ts| ==> Price(ts[k]) >= 0) ==> r >= 0
  {
    if ts == [] then 0 else Revenue(ts[..|ts| - 1]) + Price(ts[|ts| - 1])
  }

  /** The fold over two runs of rows is the sum of the folds over each. */
  lemma {:induction false} RevenueConcat(a: seq<Transaction>, b: seq<Transaction>)
    ensures Revenue(a + b) == Revenue(a) + Revenue(b)
  {
    if b == [] {
      assert a + b == a;
    } else {
      var p := b[..|b| - 1];
      assert (a + b)[..|a + b| - 1] == a + p && (a + b)[|a + b| - 1] == b[|b| - 1];
      RevenueConcat(a, p);
    }
  }

  /** Rows without a price add nothing: the revenue is that of the priced rows alone. */
  lemma {:induction false} RevenueIgnoresUnpriced(ts: seq<Transaction>)
    ensures Revenue(ts) == Revenue(Filter(ts, Priced))
  {
    if ts != [] {
      var t, rest := ts[0], ts[1..];
      assert ts == [t] + rest;
      RevenueIgnoresUnpriced(rest);
      RevenueConcat([t], rest);
      var kept: seq<Transaction> := if Priced(t) then [t] else [];
      assert Filter(ts, Priced) == kept + Filter(rest, Priced);
      RevenueConcat(kept, Filter(rest, Priced));
      assert [t][..0] == [];
    }
  }

  /** The day of every row, in table order. */
  function Days(ts: seq<Transaction>): (r: seq<int>)
    ensures |r| == |ts|
  {
    seq(|ts|, k requires 0 <= k < |ts| => Day(ts[k].purchasedAt))
  }

  /** The revenue of the rows that fall on day `d`. */
  function DayTotal(ts: seq<Transaction>, d: int): int {
    if ts == [] then 0
    else DayTotal(ts[..|ts| - 1], d) + (if Day(ts[|ts| - 1].purchasedAt) == d then Price(ts[|ts| - 1]) else 0)
  }

  /** A day no row falls on has a zero total. */
  lemma {:induction false} DayTotalOfAbsentDay(ts: seq<Transaction>, d: int)
    requires forall k :: 0 <= k < |ts| ==> Day(ts[k].purchasedAt) != d
    ensures DayTotal(ts, d) == 0
  {
    if ts != [] {
      var p := ts[..|ts| - 1];
      assert forall k :: 0 <= k < |p| ==> p[k] == ts[k];
      DayTotalOfAbsentDay(p, d);
    }
  }

  /** The total of a day with no unpriced or negative rows is non-negative, and at most the revenue. */
  lemma {:induction false} DayTotalBounds(ts: seq<Transaction>, d: int)
    requires forall k :: 0 <= k < |ts| ==> Price(ts[k]) >= 0
    ensures 0 <= DayTotal(ts, d) <= Revenue(ts)
  {
    if ts != [] {
      var p := ts[..|ts| - 1];
      assert forall k :: 0 <= k < |p| ==> p[k] == ts[k];
      DayTotalBounds(p, d);
    }
  }

  /** The sum of the day totals over the days `ds`. */
  function SumTotals(ts: seq<Transaction>, ds: seq<int>): int {
    if ds == [] then 0 else DayTotal(ts, ds[0]) + SumTotals(ts, ds[1..])
  }

  /** Adding a row adds its price to the sum over distinct days that include its day, and nothing otherwise. */
  lemma {:induction false} SumTotalsStep(ts: seq<Transaction>, t: Transaction, ds: seq<int>)
    requires NoDup(ds)
    ensures SumTotals(ts + [t], ds) == SumTotals(ts, ds) + (if Day(t.purchasedAt) in ds then Price(t) else 0)
  {
    if ds != [] {
      var rest := ds[1..];
      assert NoDup(rest) by {
        forall i, j | 0 <= i < j < |rest| ensures rest[i] != rest[j] { assert rest[i] == ds[i + 1] && rest[j] == ds[j + 1]; }
      }
      assert ds[0] !in rest by {
        forall i | 0 <= i < |rest| ensures rest[i] != ds[0] { assert rest[i] == ds[i + 1]; }
      }
      SumTotalsStep(ts, t, rest);
      assert (ts + [t])[..|ts + [t]| - 1] == ts && (ts + [t])[|ts + [t]| - 1] == t;
      assert Day(t.purchasedAt) in ds <==> Day(t.purchasedAt) == ds[0] || Day(t.purchasedAt) in rest;
    }
  }

  /**
   * Summed over distinct days that cover every row's day, the day totals
   * make up the whole revenue: each row is counted on its own day, once.
   */
  lemma {:induction false} DayTotalsSumToRevenue(ts: seq<Transaction>, ds: seq<int>)
    requires NoDup(ds)
    requires forall k :: 0 <= k < |ts| ==> Day(ts[k].purchasedAt) in ds
    ensures SumTotals(ts, ds) == Revenue(ts)
  {
    if ts == [] {
      ZeroTotals(ds);
    } else {
      var p, t := ts[..|ts| - 1], ts[|ts| - 1];
      assert ts == p + [t];
      assert forall k :: 0 <= k < |p| ==> p[k] == ts[k];
      DayTotalsSumToRevenue(p, ds);
      SumTotalsStep(p, t, ds);
    }
  }

  lemma {:induction false} ZeroTotals(ds: seq<int>)
    ensures SumTotals([], ds) == 0
  {
    if ds != [] {
      ZeroTotals(ds[1..]);
    }
  }

  /**
   * `revenueByDay`, filled by `transactions.forEach`: each row adds its
   * price to its day's entry, which starts at 0. `days` lists the keys in
   * the order the object received them, the order `Object.entries` reports.
   */
  method RevenueByDay(ts: seq<Transaction>) returns (byDay: map<int, int>, days: seq<int>)
    ensures days == Dedup(Days(ts))
    ensures forall d :: d in byDay <==> d in days
    // the keys are exactly the days some row falls on
    ensures forall d :: d in byDay <==> exists k :: 0 <= k < |ts| && Day(ts[k].purchasedAt) == d
    ensures forall d :: d in byDay ==> byDay[d] == DayTotal(ts, d)
  {
    byDay := map[];
    days := [];
    var i := 0;
    assert Tallied(ts[..0], byDay, days);
    while i < |ts|
      invariant 0 <= i <= |ts|
      invariant Tallied(ts[..i], byDay, days)
    {
      var t := ts[i];
      var date := Day(t.purchasedAt);
      // `(revenueByDay[date] || 0) + (t.purchase_price || 0)`
      var sofar := if date in byDay then byDay[date] else 0;
      ghost var before, beforeDays := byDay, days;
      if date !in byDay {
        days := days + [date];
      }
      byDay := byDay[date := sofar + Price(t)];
      assert ts[..i + 1] == ts[..i] + [t];
      TallyStep(ts[..i], t, before, beforeDays);
      i := i + 1;
    }
    assert ts[..i] == ts;
    DistinctDays(ts);
  }

  /** The distinct days are exactly the days some row falls on. */
  lemma DistinctDays(ts: seq<Transaction>)
    ensures forall d :: d in Dedup(Days(ts)) <==> exists k :: 0 <= k < |ts| && Day(ts[k].purchasedAt) == d
  {
    var days := Dedup(Days(ts));
    forall d ensures d in days <==> exists k :: 0 <= k < |ts| && Day(ts[k].purchasedAt) == d {
      if d in days {
        var j :| 0 <= j < |days| && days[j] == d;
        var k :| 0 <= k < |ts| && Days(ts)[k] == d;
      }
      if exists k :: 0 <= k < |ts| && Day(ts[k].purchasedAt) == d {
        var k :| 0 <= k < |ts| && Day(ts[k].purchasedAt) == d;
        assert Days(ts)[k] == d;
      }
    }
  }

  /**
   * The loop's invariant: `byDay` holds the total of each day of the rows
   * `ts` seen so far, under the keys `days` in first-occurrence order.
   */
  ghost predicate Tallied(ts: seq<Transaction>, byDay: map<int, int>, days: seq<int>) {
    && days == Dedup(Days(ts))
    && (forall d :: d in byDay <==> d in days)
    && (forall d :: d in byDay ==> byDay[d] == DayTotal(ts, d))
    && (forall d :: d !in byDay ==> DayTotal(ts, d) == 0)
  }

  /** One step of the `forEach`: adding row `t` to its day's entry keeps the invariant. */
  lemma TallyStep(ts: seq<Transaction>, t: Transaction, byDay: map<int, int>, days: seq<int>)
    requires Tallied(ts, byDay, days)
    ensures var date := Day(t.purchasedAt);
            Tallied(ts + [t], byDay[date := (if date in byDay then byDay[date] else 0) + Price(t)],
                    if date in byDay then days else days + [date])
  {
    var date := Day(t.purchasedAt);
    var s := Days(ts + [t]);
    assert s[..|s| - 1] == Days(ts) && s[|s| - 1] == date;
    assert (ts + [t])[..|ts|] == ts && (ts + [t])[|ts|] == t;
  }

  /** A point of the revenue chart. */
  datatype ChartPoint = ChartPoint(date: int, amount: int)

  /** `Object.entries(revenueByDay).map(([date, amount]) => ({ date, amount }))`. */
  function ChartData(byDay: map<int, int>, days: seq<int>): (r: seq<ChartPoint>)
    requires forall k :: 0 <= k < |days| ==> days[k] in byDay
    // one point per key, in key order, each an entry of the dictionary
    ensures |r| == |days|
    ensures forall k :: 0 <= k < |r| ==> r[k].date == days[k] && r[k].date in byDay && r[k].amount == byDay[r[k].date]
  {
    seq(|days|, k requires 0 <= k < |days| => ChartPoint(days[k], byDay[days[k]]))
  }

  function SumAmounts(ps: seq<ChartPoint>): int {
    if ps == [] then 0 else ps[0].amount + SumAmounts(ps[1..])
  }

  /** Points that carry the day totals of `ds` add up to the sum of those totals. */
  lemma {:induction false} ChartSumsTotals(ts: seq<Transaction>, ps: seq<ChartPoint>, ds: seq<int>)
    requires |ps| == |ds|
    requires forall k :: 0 <= k < |ps| ==> ps[k].amount == DayTotal(ts, ds[k])
    ensures SumAmounts(ps) == SumTotals(ts, ds)
  {
    if ps != [] {
      ChartSumsTotals(ts, ps[1..], ds[1..]);
    }
  }

  /** `slice(0, 10)`: the recent-transactions table shows the first ten rows at most, in order. */
  function Recent(ts: seq<Transaction>): (r: seq<Transaction>)
    ensures |r| == if |ts| < 10 then |ts| else 10
    ensures r == ts[..|r|]
  {
    if |ts| < 10 then ts else ts[..10]
  }

  /** What `setMetrics` receives. `totalRevenue` is `None` when the page shows `undefined`. */
  datatype Metrics = Metrics(totalListings: nat, totalRevenue: Option<int>, totalUsers: nat,
                             chartData: seq<ChartPoint>, recentTransactions: seq<Transaction>)

  /**
   * `fetchMetrics` on the three query results, each `None` when the query
   * returned no data.
   */
  method FetchMetrics<L, U>(listings: Option<seq<L>>, transactions: Option<seq<Transaction>>,
                            users: Option<seq<U>>) returns (m: Metrics)
    ensures m.totalListings == if listings.Some? then |listings.value| else 0
    ensures m.totalUsers == if users.Some? then |users.value| else 0
    ensures transactions.None? ==> m.totalRevenue == None && m.chartData == [] && m.recentTransactions == []
    // one point per distinct day, in the order the days first occur, each with its day's revenue
    ensures transactions.Some? ==>
              var ts := transactions.value;
              var days := Dedup(Days(ts));
              && m.totalRevenue == Some(Revenue(ts))
              && m.recentTransactions == ts
              && |m.chartData| == |days|
              && (forall k :: 0 <= k < |days| ==> m.chartData[k] == ChartPoint(days[k], DayTotal(ts, days[k])))
              && SumAmounts(m.chartData) == Revenue(ts)
  {
    var totalListings := if listings.Some? then |listings.value| else 0;
    var totalUsers := if users.Some? then |users.value| else 0;
    var ts := if transactions.Some? then transactions.value else [];
    var revenue := if transactions.Some? then Some(Revenue(ts)) else None;
    var byDay: map<int, int>, days: seq<int> := map[], [];
    if transactions.Some? {
      byDay, days := RevenueByDay(ts);
    }
    var chartData := ChartData(byDay, days);
    if transactions.Some? {
      ChartSumsTotals(ts, chartData, days);
      forall k | 0 <= k < |ts| ensures Day(ts[k].purchasedAt) in days {
        assert Days(ts)[k] == Day(ts[k].purchasedAt);
      }
      DayTotalsSumToRevenue(ts, days);
    }
    m := Metrics(totalListings, revenue, totalUsers, chartData, if transactions.Some? then ts else []);
  }
}
