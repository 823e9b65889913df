/**
 The admin sampler: rate differencing, the rolling window of capacity observations behind
 the cost projection, and the deltas it is computed from (internal/admin/sampler.go).
 */
module Sampler {
  import opened Options

  // -------------------------------------------------------------- counters and deltas

  /** What a volume row is attributed to. */
  datatype Attribution =
    Attribution(tenant: string, collector: string, transport: string, trafficClass: string, kind: string)

  datatype Row = Row(attribution: Attribution, source: nat, metrics: nat, logs: nat)

  datatype Counter = Source | Metrics | Logs

  function Get(r: Row, c: Counter): nat {
    match c
    case Source => r.source
    case Metrics => r.metrics
    case Logs => r.logs
  }

  /** deltaU64: an advance, never negative. */
  function Delta(cur: nat, prev: nat): nat { if cur < prev then 0 else cur - prev }

  /** volumeRowsByAttribution: the last row of an attribution; none reads as zeros. */
  function Lookup(rows: seq<Row>, a: Attribution): Row {
    if rows == [] then Row(a, 0, 0, 0)
    else if rows[|rows| - 1].attribution == a then rows[|rows| - 1]
    else Lookup(rows[..|rows| - 1], a)
  }

  function DeltaRow(cur: Row, prev: Row): Row {
    Row(cur.attribution, Delta(cur.source, prev.source), Delta(cur.metrics, prev.metrics), Delta(cur.logs, prev.logs))
  }

  predicate Moved(r: Row) { r.source != 0 || r.metrics != 0 || r.logs != 0 }

  /** deltaVolumeRows: rows that did not move are left out. */
  function DeltaRows(cur: seq<Row>, prev: seq<Row>): seq<Row> {
    if cur == [] then []
    else
      var d := DeltaRow(cur[|cur| - 1], Lookup(prev, cur[|cur| - 1].attribution));
      DeltaRows(cur[..|cur| - 1], prev) + if Moved(d) then [d] else []
  }

  function Total(rows: seq<Row>, c: Counter): nat {
    if rows == [] then 0 else Total(rows[..|rows| - 1], c) + Get(rows[|rows| - 1], c)
  }

  /** A snapshot has one row an attribution. */
  predicate Unique(rows: seq<Row>) {
    forall i, j :: 0 <= i < j < |rows| ==> rows[i].attribution != rows[j].attribution
  }

  /** No counter has stepped back, and none has disappeared. */
  ghost predicate Monotone(prev: seq<Row>, cur: seq<Row>, c: Counter) {
    forall a :: Get(Lookup(prev, a), c) <= Get(Lookup(cur, a), c)
  }

  function Without(rows: seq<Row>, a: Attribution): seq<Row> {
    if rows == [] then []
    else Without(rows[..|rows| - 1], a) + if rows[|rows| - 1].attribution == a then [] else [rows[|rows| - 1]]
  }

  lemma {:induction false} WithoutLookup(rows: seq<Row>, a: Attribution, b: Attribution)
    ensures Lookup(Without(rows, a), b) == if a == b then Row(a, 0, 0, 0) else Lookup(rows, b)
  {
    if rows != [] {
      var init, last := rows[..|rows| - 1], rows[|rows| - 1];
      WithoutLookup(init, a, b);
      WithoutSnoc(rows, a);
    }
  }

  lemma WithoutSnoc(rows: seq<Row>, a: Attribution)
    requires rows != []
    ensures var less := Without(rows[..|rows| - 1], a);
      if rows[|rows| - 1].attribution == a then Without(rows, a) == less
      else Without(rows, a) == less + [rows[|rows| - 1]] && Without(rows, a)[..|less|] == less
  {
    var less := Without(rows[..|rows| - 1], a);
    assert less + [] == less;
    assert (less + [rows[|rows| - 1]])[..|less|] == less;
  }

  lemma {:induction false} WithoutElements(rows: seq<Row>, a: Attribution)
    ensures forall r :: r in Without(rows, a) <==> r in rows && r.attribution != a
  {
    if rows != [] {
      WithoutElements(rows[..|rows| - 1], a);
      assert rows == rows[..|rows| - 1] + [rows[|rows| - 1]];
    }
  }

  lemma {:induction false} WithoutTotal(rows: seq<Row>, a: Attribution, c: Counter)
    requires Unique(rows)
    ensures Total(rows, c) == Total(Without(rows, a), c) + Get(Lookup(rows, a), c)
  {
    if rows != [] {
      var init, last := rows[..|rows| - 1], rows[|rows| - 1];
      WithoutTotal(init, a, c);
      WithoutSnoc(rows, a);
      if last.attribution == a { AbsentZero(init, a); }
    }
  }

  lemma {:induction false} AbsentZero(rows: seq<Row>, a: Attribution)
    requires forall r :: r in rows ==> r.attribution != a
    ensures Lookup(rows, a) == Row(a, 0, 0, 0) && Without(rows, a) == rows
  {
    if rows != [] {
      var init, last := rows[..|rows| - 1], rows[|rows| - 1];
      assert rows == init + [last] && last in rows;
      AbsentZero(init, a);
    }
  }

  lemma {:induction false} WithoutUnique(rows: seq<Row>, a: Attribution)
    requires Unique(rows)
    ensures Unique(Without(rows, a))
  {
    if rows != [] {
      var init, last := rows[..|rows| - 1], rows[|rows| - 1];
      WithoutUnique(init, a);
      WithoutElements(init, a);
      var less := Without(init, a);
      forall i | 0 <= i < |less| ensures less[i].attribution != last.attribution {
        assert less[i] in init;
      }
    }
  }

  /** What the deltas count too much: counters that stepped back, and rows that went away. */
  function Excess(cur: seq<Row>, prev: seq<Row>, c: Counter): nat
    decreases |cur|
  {
    if cur == [] then Total(prev, c)
    else
      var last := cur[|cur| - 1];
      Excess(cur[..|cur| - 1], Without(prev, last.attribution), c)
        + Delta(Get(Lookup(prev, last.attribution), c), Get(last, c))
  }

  lemma {:induction false} DeltaWithout(cur: seq<Row>, prev: seq<Row>, a: Attribution)
    requires forall r :: r in cur ==> r.attribution != a
    ensures DeltaRows(cur, Without(prev, a)) == DeltaRows(cur, prev)
  {
    if cur != [] {
      DeltaWithout(cur[..|cur| - 1], prev, a);
      WithoutLookup(prev, a, cur[|cur| - 1].attribution);
    }
  }

  lemma TotalSnoc(rows: seq<Row>, r: Row, c: Counter)
    ensures Total(rows + [r], c) == Total(rows, c) + Get(r, c)
  {
    assert (rows + [r])[..|rows|] == rows;
  }

  lemma {:induction false} DeltaTotal(cur: seq<Row>, prev: seq<Row>, c: Counter)
    requires Unique(cur) && Unique(prev)
    ensures Total(DeltaRows(cur, prev), c) + Total(prev, c) == Total(cur, c) + Excess(cur, prev, c)
    decreases |cur|
  {
    if cur != [] {
      var init, last := cur[..|cur| - 1], cur[|cur| - 1];
      var a := last.attribution;
      WithoutUnique(prev, a);
      WithoutTotal(prev, a, c);
      DeltaTotal(init, Without(prev, a), c);
      DeltaWithout(init, prev, a);
      var d := DeltaRow(last, Lookup(prev, a));
      TotalSnoc(DeltaRows(init, prev), d, c);
      assert DeltaRows(init, prev) + [] == DeltaRows(init, prev);
    }
  }

  ghost predicate AllZero(rows: seq<Row>, c: Counter) { forall a :: Get(Lookup(rows, a), c) == 0 }

  lemma {:induction false} TotalZero(rows: seq<Row>, c: Counter)
    requires Unique(rows)
    ensures Total(rows, c) == 0 <==> AllZero(rows, c)
  {
    if rows != [] {
      var init, last := rows[..|rows| - 1], rows[|rows| - 1];
      TotalZero(init, c);
      AbsentZero(init, last.attribution);
      assert Get(Lookup(rows, last.attribution), c) == Get(last, c);
      if Total(rows, c) == 0 {
        forall a ensures Get(Lookup(rows, a), c) == 0 { assert Get(Lookup(init, a), c) == 0; }
      } else if Get(last, c) == 0 {
        var a :| Get(Lookup(init, a), c) != 0;
        assert Get(Lookup(rows, a), c) != 0;
      }
    }
  }

  lemma {:induction false} ExcessZero(cur: seq<Row>, prev: seq<Row>, c: Counter)
    requires Unique(cur) && Unique(prev)
    ensures Excess(cur, prev, c) == 0 <==> Monotone(prev, cur, c)
    decreases |cur|
  {
    if cur == [] {
      TotalZero(prev, c);
      assert Monotone(prev, [], c) <==> AllZero(prev, c) by {
        if Monotone(prev, [], c) {
          forall a ensures Get(Lookup(prev, a), c) == 0 { assert Get(Lookup(prev, a), c) <= Get(Lookup([], a), c); }
        }
      }
    } else {
      var init, last := cur[..|cur| - 1], cur[|cur| - 1];
      WithoutUnique(prev, last.attribution);
      ExcessZero(init, Without(prev, last.attribution), c);
      MonotoneStep(cur, prev, c);
    }
  }

  lemma MonotoneStep(cur: seq<Row>, prev: seq<Row>, c: Counter)
    requires cur != [] && Unique(cur)
    ensures var last := cur[|cur| - 1];
      Monotone(prev, cur, c) <==>
        && Monotone(Without(prev, last.attribution), cur[..|cur| - 1], c)
        && Get(Lookup(prev, last.attribution), c) <= Get(last, c)
  {
    var init, last := cur[..|cur| - 1], cur[|cur| - 1];
    var a := last.attribution;
    var less := Without(prev, a);
    AbsentZero(init, a);
    assert Lookup(cur, a) == last;
    forall b
      ensures Get(Lookup(less, b), c) == if a == b then 0 else Get(Lookup(prev, b), c)
      ensures a != b ==> Lookup(init, b) == Lookup(cur, b)
    {
      WithoutLookup(prev, a, b);
    }
    if Monotone(prev, cur, c) {
      forall b ensures Get(Lookup(less, b), c) <= Get(Lookup(init, b), c) {
        assert Get(Lookup(prev, b), c) <= Get(Lookup(cur, b), c);
      }
      assert Get(Lookup(prev, a), c) <= Get(Lookup(cur, a), c);
    }
    if Monotone(less, init, c) && Get(Lookup(prev, a), c) <= Get(last, c) {
      forall b ensures Get(Lookup(prev, b), c) <= Get(Lookup(cur, b), c) {
        assert Get(Lookup(less, b), c) <= Get(Lookup(init, b), c);
      }
    }
  }

  /** The delta rows of a counter sum to the difference of its totals exactly when no counter
      stepped back or disappeared between the two snapshots. */
  lemma DeltasConserve(prev: seq<Row>, cur: seq<Row>, c: Counter)
    requires Unique(prev) && Unique(cur)
    ensures Total(DeltaRows(cur, prev), c) == Total(cur, c) - Total(prev, c) <==> Monotone(prev, cur, c)
    ensures Total(DeltaRows(cur, prev), c) >= Total(cur, c) - Total(prev, c)
  {
    DeltaTotal(cur, prev, c);
    ExcessZero(cur, prev, c);
  }

  /** Deltas over adjacent intervals add up to the delta over both. */
  lemma DeltasTelescope(first: seq<Row>, second: seq<Row>, third: seq<Row>, c: Counter)
    requires Unique(first) && Unique(second) && Unique(third)
    requires Monotone(first, second, c) && Monotone(second, third, c)
    ensures Total(DeltaRows(second, first), c) + Total(DeltaRows(third, second), c) == Total(DeltaRows(third, first), c)
  {
    assert Monotone(first, third, c) by {
      forall a ensures Get(Lookup(first, a), c) <= Get(Lookup(third, a), c) {
        assert Get(Lookup(first, a), c) <= Get(Lookup(second, a), c) <= Get(Lookup(third, a), c);
      }
    }
    DeltasConserve(first, second, c);
    DeltasConserve(second, third, c);
    DeltasConserve(first, third, c);
  }

  // -------------------------------------------------------------- rates

  /** One reading of a cumulative total. */
  lemma {:induction false} LookupFinds(rows: seq<Row>, r: Row)
    requires Unique(rows) && r in rows
    ensures Lookup(rows, r.attribution) == r
  {
    var init, last := rows[..|rows| - 1], rows[|rows| - 1];
    assert rows == init + [last];
    if r != last {
      var k :| 0 <= k < |init| && init[k] == r;
      assert rows[k] == r;
      LookupFinds(init, r);
    }
  }

  /** What a counter gained. */
  function Gain(now: nat, before: nat): nat { if now > before then now - before else 0 }

  lemma {:induction false} DeltaRowsFrom(cur: seq<Row>, prev: seq<Row>, d: Row)
    ensures d in DeltaRows(cur, prev) <==>
      exists r :: r in cur && d == DeltaRow(r, Lookup(prev, r.attribution)) && Moved(d)
  {
    if cur != [] {
      var init, last := cur[..|cur| - 1], cur[|cur| - 1];
      DeltaRowsFrom(init, prev, d);
      assert cur == init + [last];
      hide Moved, Lookup, DeltaRow;
      if r :| r in init && d == DeltaRow(r, Lookup(prev, r.attribution)) && Moved(d) { assert r in cur; }
      assert last in cur;
    }
  }

  /** One row for each attribution that gained something, each of its counters measured against the
      earlier row of that very attribution, or against nothing. */
  lemma DeltaRowsExactly(cur: seq<Row>, prev: seq<Row>, d: Row)
    requires Unique(prev)
    ensures d in DeltaRows(cur, prev) <==>
      && (d.source > 0 || d.metrics > 0 || d.logs > 0)
      && exists r :: r in cur && r.attribution == d.attribution && MeasuredAgainst(d, r, prev)
  {
    DeltaRowsFrom(cur, prev, d);
    hide MeasuredAgainst, DeltaRow, Lookup, Unique, DeltaRows;
    forall r ensures MeasuredAgainst(d, r, prev) && r.attribution == d.attribution <==>
      d == DeltaRow(r, Lookup(prev, r.attribution))
    {
      MeasuredExactly(d, r, prev);
    }
    if r :| r in cur && r.attribution == d.attribution && MeasuredAgainst(d, r, prev) {
      assert d == DeltaRow(r, Lookup(prev, r.attribution));
    }
  }

  lemma MeasuredExactly(d: Row, r: Row, prev: seq<Row>)
    requires Unique(prev)
    ensures MeasuredAgainst(d, r, prev) && r.attribution == d.attribution <==>
      d == DeltaRow(r, Lookup(prev, r.attribution))
  {
    if p :| p in prev && p.attribution == r.attribution {
      forall q | q in prev && q.attribution == r.attribution ensures q == p { OneRow(prev, p, q); }
      LookupFinds(prev, p);
    } else {
      AbsentZero(prev, r.attribution);
    }
    hide Unique, Lookup;
  }

  lemma OneRow(rows: seq<Row>, p: Row, q: Row)
    requires Unique(rows) && p in rows && q in rows && p.attribution == q.attribution
    ensures p == q
  {
    LookupFinds(rows, p);
    LookupFinds(rows, q);
  }

  /** The gains of r over the earlier row of its attribution, or over nothing if there is none. */
  predicate MeasuredAgainst(d: Row, r: Row, prev: seq<Row>) {
    && (forall p :: p in prev && p.attribution == r.attribution ==>
          && d.source == Gain(r.source, p.source) && d.metrics == Gain(r.metrics, p.metrics)
          && d.logs == Gain(r.logs, p.logs))
    && ((forall p :: p in prev ==> p.attribution != r.attribution) ==>
          d.source == r.source && d.metrics == r.metrics && d.logs == r.logs)
  }

  datatype Reading = Reading(at: int, total: nat)

  /** A rate, with the interval it was taken over. */
  datatype Rate = Rate(value: real, elapsed: int)

  function RateOf(cur: nat, prev: nat, elapsed: int): Rate
    requires elapsed > 0
  {
    Rate((Delta(cur, prev) as real) / (elapsed as real), elapsed)
  }

  /** The rate between two readings; none without a forward clock. */
  function RateBetween(prev: Reading, cur: Reading): Option<Rate> {
    var elapsed := cur.at - prev.at;
    if elapsed > 0 then Some(RateOf(cur.total, prev.total, elapsed)) else None
  }

  /** All the rates a series of readings gives. */
  function Rates(rs: seq<Reading>): seq<Rate> {
    if |rs| <= 1 then []
    else
      var r := RateBetween(rs[|rs| - 2], rs[|rs| - 1]);
      Rates(rs[..|rs| - 1]) + if r.Some? then [r.value] else []
  }

  /** The amount a series of rates stands for. */
  function Integral(rates: seq<Rate>): real {
    if rates == [] then 0.0
    else Integral(rates[..|rates| - 1]) + rates[|rates| - 1].value * (rates[|rates| - 1].elapsed as real)
  }

  /** The total never falls. */
  predicate Rising(rs: seq<Reading>) {
    |rs| > 1 ==> Rising(rs[..|rs| - 1]) && rs[|rs| - 2].total <= rs[|rs| - 1].total
  }

  /** Whenever the total moves, the clock has moved forward. */
  predicate Timed(rs: seq<Reading>) {
    |rs| > 1 ==>
      && Timed(rs[..|rs| - 1])
      && (rs[|rs| - 2].total != rs[|rs| - 1].total ==> rs[|rs| - 2].at < rs[|rs| - 1].at)
  }

  lemma DeltaOfRise(cur: nat, prev: nat)
    requires prev <= cur
    ensures Delta(cur, prev) == cur - prev
  {}

  lemma RateWorth(prev: Reading, cur: Reading)
    requires prev.at < cur.at
    ensures var r := RateBetween(prev, cur).value; r.value * (r.elapsed as real) == Delta(cur.total, prev.total) as real
  {}

  lemma IntegralSnoc(rates: seq<Rate>, r: Rate)
    ensures Integral(rates + [r]) == Integral(rates) + r.value * (r.elapsed as real)
  {
    assert (rates + [r])[..|rates|] == rates;
  }

  /** What one more reading adds to the integral. */
  lemma RatesStep(rs: seq<Reading>)
    requires |rs| > 1 && rs[|rs| - 2].total <= rs[|rs| - 1].total
    ensures var a, b := rs[|rs| - 2], rs[|rs| - 1];
      Integral(Rates(rs)) == Integral(Rates(rs[..|rs| - 1])) + if a.at < b.at then (b.total - a.total) as real else 0.0
  {
    hide Integral, Delta;
    var init, a, b := rs[..|rs| - 1], rs[|rs| - 2], rs[|rs| - 1];
    if a.at < b.at {
      var r := RateBetween(a, b).value;
      IntegralSnoc(Rates(init), r);
      RateWorth(a, b);
      DeltaOfRise(b.total, a.total);
    } else {
      assert Rates(init) + [] == Rates(init);
    }
  }

  lemma {:induction false} RatesBound(rs: seq<Reading>)
    requires rs != [] && Rising(rs)
    ensures Integral(Rates(rs)) <= (rs[|rs| - 1].total - rs[0].total) as real
    ensures Integral(Rates(rs)) == (rs[|rs| - 1].total - rs[0].total) as real <==> Timed(rs)
  {
    hide Integral, Delta, RateBetween;
    if |rs| > 1 {
      hide Rates;
      RatesBound(rs[..|rs| - 1]);
      RatesStep(rs);
    } else {
      NoRates(rs);
    }
  }

  lemma NoRates(rs: seq<Reading>)
    requires |rs| <= 1
    ensures Integral(Rates(rs)) == 0.0
  {}

  /** A rate is the advance over the time between two readings, and nothing for a total that went
      back. */
  lemma RateExactly(prev: Reading, cur: Reading)
    ensures RateBetween(prev, cur) == None <==> cur.at <= prev.at
    ensures cur.at > prev.at ==>
      && RateBetween(prev, cur).value.elapsed == cur.at - prev.at
      && RateBetween(prev, cur).value.value * ((cur.at - prev.at) as real) == Gain(cur.total, prev.total) as real
  {}

  /** The recorded rates account for the whole advance of a rising total exactly when the
      total never moved while the clock stood still or went back. */
  lemma RatesIntegrate(rs: seq<Reading>)
    requires rs != [] && Rising(rs)
    ensures Integral(Rates(rs)) == (rs[|rs| - 1].total - rs[0].total) as real <==> Timed(rs)
  {
    RatesBound(rs);
  }

  /** The rate to record for one total, if there is one to record. */
  function Record(hasPrev: bool, prev: Reading, cur: Reading): seq<Rate> {
    if hasPrev && RateBetween(prev, cur).Some? then [RateBetween(prev, cur).value] else []
  }

  /** The recorded rates are those of the readings, the last of which is remembered. */
  predicate Tracks(rates: seq<Rate>, rs: seq<Reading>, hasPrev: bool, prev: Reading) {
    rates == Rates(rs) && (hasPrev <==> rs != []) && (hasPrev ==> rs[|rs| - 1] == prev)
  }

  lemma TracksOn(rates: seq<Rate>, rs: seq<Reading>, hasPrev: bool, prev: Reading, cur: Reading)
    requires Tracks(rates, rs, hasPrev, prev)
    ensures Tracks(rates + Record(hasPrev, prev, cur), rs + [cur], true, cur)
  {
    assert (rs + [cur])[..|rs|] == rs;
    if rs == [] { assert Rates([cur]) == Rates([]) + []; }
  }

  /** The rate half of sample: collections, metric points and log records; no rate for the
      first reading, nor without a forward clock. */
  class RateSampler {
    var hasPrev: bool
    var prevAt: int
    var prevNumGC: nat
    var prevMetrics: nat
    var prevLogs: nat
    var gcRate: seq<Rate>
    var metricRate: seq<Rate>
    var logRate: seq<Rate>
    ghost var gcs: seq<Reading>
    ghost var metrics: seq<Reading>
    ghost var logs: seq<Reading>

    ghost predicate Valid()
      reads this
    {
      && Tracks(gcRate, gcs, hasPrev, Reading(prevAt, prevNumGC))
      && Tracks(metricRate, metrics, hasPrev, Reading(prevAt, prevMetrics))
      && Tracks(logRate, logs, hasPrev, Reading(prevAt, prevLogs))
    }

    constructor ()
      ensures Valid() && gcs == [] && metrics == [] && logs == []
    {
      hasPrev, prevAt, prevNumGC, prevMetrics, prevLogs := false, 0, 0, 0, 0;
      gcRate, metricRate, logRate := [], [], [];
      gcs, metrics, logs := [], [], [];
    }

    method Sample(at: int, numGC: nat, metricPoints: nat, logRecords: nat)
      requires Valid()
      modifies this
      ensures Valid()
      ensures gcs == old(gcs) + [Reading(at, numGC)]
      ensures metrics == old(metrics) + [Reading(at, metricPoints)]
      ensures logs == old(logs) + [Reading(at, logRecords)]
    {
      hide Tracks, Delta, RateOf;
      TracksOn(gcRate, gcs, hasPrev, Reading(prevAt, prevNumGC), Reading(at, numGC));
      TracksOn(metricRate, metrics, hasPrev, Reading(prevAt, prevMetrics), Reading(at, metricPoints));
      TracksOn(logRate, logs, hasPrev, Reading(prevAt, prevLogs), Reading(at, logRecords));
      var elapsed := at - prevAt;
      var gc, metric, log := gcRate, metricRate, logRate;
      if hasPrev && elapsed > 0 {
        gc := gc + [RateOf(numGC, prevNumGC, elapsed)];
        metric := metric + [RateOf(metricPoints, prevMetrics, elapsed)];
        log := log + [RateOf(logRecords, prevLogs, elapsed)];
      } else {
        assert gc + [] == gc && metric + [] == metric && log + [] == log;
      }
      assert gc == gcRate + Record(hasPrev, Reading(prevAt, prevNumGC), Reading(at, numGC));
      assert metric == metricRate + Record(hasPrev, Reading(prevAt, prevMetrics), Reading(at, metricPoints));
      assert log == logRate + Record(hasPrev, Reading(prevAt, prevLogs), Reading(at, logRecords));
      hide Record;
      gcRate, metricRate, logRate := gc, metric, log;
      hasPrev, prevAt, prevNumGC, prevMetrics, prevLogs := true, at, numGC, metricPoints, logRecords;
      gcs, metrics, logs :=
        gcs + [Reading(at, numGC)], metrics + [Reading(at, metricPoints)], logs + [Reading(at, logRecords)];
    }
  }

  // -------------------------------------------------------------- the cost window

  const SECOND := 1_000_000_000
  const MINIMUM_OBSERVATION := 120 * SECOND
  const WINDOW := 600 * SECOND
  const REFRESH := 60 * SECOND

  /** What one signal has sent so far. */
  datatype Signal = Signal(payloadBytes: nat, retryAttempts: nat)

  datatype Transport = Transport(metrics: Signal, logs: Signal)

  function DeltaSignal(cur: Signal, prev: Signal): Signal {
    Signal(Delta(cur.payloadBytes, prev.payloadBytes), Delta(cur.retryAttempts, prev.retryAttempts))
  }

  /** deltaTransportSnapshot. */
  function DeltaTransport(cur: Transport, prev: Transport): Transport {
    Transport(DeltaSignal(cur.metrics, prev.metrics), DeltaSignal(cur.logs, prev.logs))
  }

  datatype Observation = Observation(at: int, volume: seq<Row>, transport: Transport)

  /** What is projected from: two observations and the deltas between them. */
  datatype Projection = Projection(at: int, elapsed: int, rows: seq<Row>, transport: Transport)

  /** Strictly later and later. */
  predicate Later(obs: seq<Observation>) {
    |obs| > 1 ==> obs[0].at < obs[1].at && Later(obs[1..])
  }

  /** The first is within ten minutes of the last. */
  predicate InWindow(obs: seq<Observation>) {
    obs != [] ==> obs[|obs| - 1].at - obs[0].at <= WINDOW
  }

  lemma {:induction false} LaterAt(obs: seq<Observation>, i: nat, j: nat)
    requires Later(obs) && i < j < |obs|
    ensures obs[i].at < obs[j].at
  {
    if i > 0 { LaterAt(obs[1..], i - 1, j - 1); } else if j > 1 { LaterAt(obs[1..], 0, j - 1); }
  }

  /** The window's observations have strictly increasing times, all within ten minutes of
      the last. */
  lemma WindowHolds(obs: seq<Observation>, i: nat, j: nat)
    requires Later(obs) && InWindow(obs) && i < j < |obs|
    ensures obs[i].at < obs[j].at && obs[|obs| - 1].at - obs[i].at <= WINDOW
  {
    LaterAt(obs, i, j);
    if i > 0 { LaterAt(obs, 0, i); }
  }

  lemma {:induction false} LaterSnoc(obs: seq<Observation>, o: Observation)
    requires Later(obs) && (obs != [] ==> obs[|obs| - 1].at < o.at)
    ensures Later(obs + [o])
  {
    if |obs| > 1 {
      LaterSnoc(obs[1..], o);
      assert (obs + [o])[1..] == obs[1..] + [o];
    }
  }

  /** The observations kept: those before the cutoff go, but for the last. */
  function Expire(obs: seq<Observation>, cutoff: int): seq<Observation> {
    if |obs| > 1 && obs[0].at < cutoff then Expire(obs[1..], cutoff) else obs
  }

  lemma {:induction false} ExpireKeeps(obs: seq<Observation>, cutoff: int)
    requires obs != [] && Later(obs)
    ensures var kept := Expire(obs, cutoff);
      kept != [] && kept[|kept| - 1] == obs[|obs| - 1] && Later(kept) && (|kept| > 1 ==> kept[0].at >= cutoff)
  {
    if |obs| > 1 && obs[0].at < cutoff { ExpireKeeps(obs[1..], cutoff); }
  }

  /** The window after one more observation. */
  function Observed(obs: seq<Observation>, o: Observation): seq<Observation> {
    Expire(obs + [o], o.at - WINDOW)
  }

  lemma ObservedKeeps(obs: seq<Observation>, o: Observation)
    requires Later(obs) && (obs != [] ==> obs[|obs| - 1].at < o.at)
    ensures var kept := Observed(obs, o);
      kept != [] && kept[|kept| - 1] == o && Later(kept) && InWindow(kept)
  {
    LaterSnoc(obs, o);
    ExpireKeeps(obs + [o], o.at - WINDOW);
  }

  /** What leaves the window, when one more observation comes: what is older than ten minutes, and
      nothing else; the rest stays in order. */
  lemma WindowExactly(obs: seq<Observation>, o: Observation) returns (k: nat)
    requires Later(obs) && (obs != [] ==> obs[|obs| - 1].at < o.at)
    ensures k <= |obs| && Observed(obs, o) == (obs + [o])[k..]
    ensures forall i :: 0 <= i < k ==> o.at - obs[i].at > 600_000_000_000
    ensures forall i :: k <= i < |obs| ==> o.at - obs[i].at <= 600_000_000_000
  {
    LaterSnoc(obs, o);
    k := ExpireExactly(obs + [o], o.at - WINDOW);
    forall i | k <= i < |obs| ensures o.at - obs[i].at <= WINDOW {
      assert (obs + [o])[i] == obs[i] && (obs + [o])[k].at >= o.at - WINDOW;
      if k < i { LaterAt(obs + [o], k, i); }
    }
    forall i | 0 <= i < k ensures o.at - obs[i].at > WINDOW { assert (obs + [o])[i] == obs[i]; }
  }

  lemma {:induction false} ExpireExactly(obs: seq<Observation>, cutoff: int) returns (k: nat)
    requires obs != []
    ensures k < |obs| && Expire(obs, cutoff) == obs[k..]
    ensures (forall i :: 0 <= i < k ==> obs[i].at < cutoff) && (k + 1 < |obs| ==> obs[k].at >= cutoff)
  {
    if |obs| > 1 && obs[0].at < cutoff {
      k := ExpireExactly(obs[1..], cutoff);
      k := k + 1;
      assert obs[1..][k - 1..] == obs[k..];
      assert forall i :: 1 <= i < |obs| ==> obs[i] == obs[1..][i - 1];
    } else {
      k := 0;
    }
  }

  /** A projection compares two observations: their times, their rows, and each signal's counters
      with the same signal's. */
  lemma ProjectExactly(now: Observation, base: Observation)
    ensures var p := Project(now, base);
      && p.at == now.at && p.elapsed == now.at - base.at && p.rows == DeltaRows(now.volume, base.volume)
      && p.transport.metrics.payloadBytes
           == Gain(now.transport.metrics.payloadBytes, base.transport.metrics.payloadBytes)
      && p.transport.metrics.retryAttempts
           == Gain(now.transport.metrics.retryAttempts, base.transport.metrics.retryAttempts)
      && p.transport.logs.payloadBytes == Gain(now.transport.logs.payloadBytes, base.transport.logs.payloadBytes)
      && p.transport.logs.retryAttempts == Gain(now.transport.logs.retryAttempts, base.transport.logs.retryAttempts)
  {}

  function Project(now: Observation, base: Observation): Projection {
    Projection(now.at, now.at - base.at, DeltaRows(now.volume, base.volume),
               DeltaTransport(now.transport, base.transport))
  }

  /** A projection spans between two and ten minutes. */
  predicate Spans(p: Projection) { MINIMUM_OBSERVATION <= p.elapsed <= WINDOW }

  /** Successive projections are at least a minute apart. */
  predicate Spaced(ps: seq<Projection>) {
    |ps| > 1 ==> Spaced(ps[..|ps| - 1]) && ps[|ps| - 1].at - ps[|ps| - 2].at >= REFRESH
  }

  lemma SpacedSnoc(ps: seq<Projection>, p: Projection)
    requires Spaced(ps) && (ps != [] ==> p.at - ps[|ps| - 1].at >= REFRESH)
    ensures Spaced(ps + [p])
  {
    assert (ps + [p])[..|ps|] == ps;
  }

  /** One call of the sampler: the clock, what the source reports, and whether the projection
      of these numbers goes through. */
  datatype Sample = Sample(at: int, volume: seq<Row>, transport: Transport, projectable: bool)

  /** What the sampler holds: its window, and what it has projected so far. */
  datatype Held = Held(observations: seq<Observation>, published: seq<Projection>)

  /** One sample: refused off the clock's forward run, and otherwise observed; projected when two
      minutes have been observed and the last projection is a minute old. */
  function Taken(h: Held, enabled: bool, s: Sample): Held {
    var last := |h.observations| - 1;
    if !enabled || (last >= 0 && s.at <= h.observations[last].at) then h
    else
      var o := Observation(s.at, s.volume, s.transport);
      var kept := Observed(h.observations, o);
      var rested := h.published == [] || s.at - h.published[|h.published| - 1].at >= 60_000_000_000;
      Held(kept,
           h.published +
           if s.projectable && kept != [] && s.at - kept[0].at >= 120_000_000_000 && rested then [Project(o, kept[0])]
           else [])
  }

  function TakenAll(h: Held, enabled: bool, samples: seq<Sample>): Held {
    if samples == [] then h
    else Taken(TakenAll(h, enabled, samples[..|samples| - 1]), enabled, samples[|samples| - 1])
  }

  class CostSampler {
    const enabled: bool
    var observations: seq<Observation>
    var projection: Option<Projection>
    var lastProjectionAt: int
    ghost var published: seq<Projection>

    ghost predicate Valid()
      reads this
    {
      && Later(observations) && InWindow(observations)
      && Spaced(published) && (forall p :: p in published ==> Spans(p))
      && projection == (if published == [] then None else Some(published[|published| - 1]))
      && (projection.Some? ==> observations != [] && lastProjectionAt == projection.value.at)
      && (projection.Some? ==> lastProjectionAt <= observations[|observations| - 1].at)
    }

    constructor (enabled: bool)
      ensures Valid() && this.enabled == enabled && observations == [] && published == []
    {
      this.enabled := enabled;
      observations, projection, lastProjectionAt, published := [], None, 0, [];
    }

    /** A projection is due: two minutes observed, and a minute since the last one. */
    predicate Due(obs: seq<Observation>, at: int)
      reads this
    {
      && |obs| >= 2 && at - obs[0].at >= MINIMUM_OBSERVATION
      && (projection.Some? ==> at - lastProjectionAt >= REFRESH)
    }

    /** sampleCost. */
    method SampleCost(s: Sample)
      requires Valid()
      modifies this
      ensures Valid()
      ensures !enabled || (old(observations) != [] && s.at <= old(observations)[|old(observations)| - 1].at) ==>
        observations == old(observations) && published == old(published)
      ensures enabled && (old(observations) == [] || s.at > old(observations)[|old(observations)| - 1].at) ==>
        var o := Observation(s.at, s.volume, s.transport);
        && observations == Observed(old(observations), o) && observations != []
        && published == old(published) +
             if s.projectable && s.at - observations[0].at >= 120_000_000_000
                && (old(published) == [] || s.at - old(published[|published| - 1].at) >= 60_000_000_000)
             then [Project(o, observations[0])] else []
      ensures Held(observations, published) == Taken(old(Held(observations, published)), enabled, s)
    {
      hide Expire, DeltaRows, Spaced, Later;
      if !enabled { return; }
      if |observations| > 0 && s.at <= observations[|observations| - 1].at { return; }
      var current := Observation(s.at, s.volume, s.transport);
      ObservedKeeps(observations, current);
      var kept := DropExpired(observations + [current], s.at - WINDOW);
      observations := kept;
      Reproject(current, s.projectable);
    }

    /** The rest of sampleCost, once the observation is in the window. */
    method Reproject(current: Observation, projectable: bool)
      requires Valid() && observations != [] && observations[|observations| - 1] == current
      modifies this`projection, this`lastProjectionAt, this`published
      ensures Valid()
      ensures published == old(published) +
        if old(Due(observations, current.at)) && projectable then [Project(current, observations[0])] else []
    {
      hide DeltaRows, Spaced, Later;
      if |observations| < 2 { return; }
      var baseline := observations[0];
      var elapsed := current.at - baseline.at;
      if elapsed < MINIMUM_OBSERVATION { return; }
      if projection.Some? && current.at - lastProjectionAt < REFRESH { return; }
      if !projectable { return; }
      var rows := DeltaVolumeRows(current.volume, baseline.volume);
      var next := Projection(current.at, elapsed, rows, DeltaTransport(current.transport, baseline.transport));
      SpacedSnoc(published, next);
      projection := Some(next);
      lastProjectionAt := current.at;
      published := published + [next];
    }

    /** Any sequence of samples, on any clock. */
    method Run(samples: seq<Sample>)
      requires Valid()
      modifies this
      ensures Valid()
      ensures Held(observations, published) == TakenAll(old(Held(observations, published)), enabled, samples)
    {
      for i := 0 to |samples|
        invariant Valid()
        invariant Held(observations, published) == TakenAll(old(Held(observations, published)), enabled, samples[..i])
      {
        assert samples[..i + 1][..i] == samples[..i];
        SampleCost(samples[i]);
      }
      assert samples[..|samples|] == samples;
    }
  }

  method DropExpired(obs: seq<Observation>, cutoff: int) returns (kept: seq<Observation>)
    ensures kept == Expire(obs, cutoff)
  {
    kept := obs;
    while |kept| > 1 && kept[0].at < cutoff
      invariant Expire(kept, cutoff) == Expire(obs, cutoff)
      decreases |kept|
    {
      kept := kept[1..];
    }
  }

  method DeltaVolumeRows(current: seq<Row>, previous: seq<Row>) returns (rows: seq<Row>)
    ensures rows == DeltaRows(current, previous)
  {
    rows := [];
    for i := 0 to |current|
      invariant rows == DeltaRows(current[..i], previous)
    {
      assert current[..i + 1][..i] == current[..i] && current[..i + 1][i] == current[i];
      var d := DeltaRow(current[i], Lookup(previous, current[i].attribution));
      if Moved(d) { rows := rows + [d]; }
    }
    assert current[..|current|] == current;
  }
}
