/**
 The monthly cost model of the storage report: allocating the append rate, pricing a
 container, and the totals (scripts/storage-report.py). Money and rates are reals.
 */
module StorageCost {
  import opened Options

  /** Account-wide operations a day, as metered. */
  datatype Measured = Measured(appends: real, writeOps: real, listOps: real, readOps: real)

  /** One --scale NAME=FACTOR. */
  datatype Knob = Knob(name: string, factor: real)

  datatype Params = Params(
    measured: Option<Measured>, totalBytes: nat, avgAppend: real,
    actualRetention: real, modelRetention: real, volumeScale: real, perContainer: seq<Knob>,
    storagePrice: real, writePrice: real, readPrice: real)

  datatype Container = Container(name: string, bytes: nat)

  const DAYS_PER_MONTH := 30.44
  const GIB: real := 1073741824.0

  // -------------------------------------------------------------- one container

  /** append_rate_per_day: a share of the metered rate, or solved back from resident bytes. */
  function AppendRate(bytes: nat, p: Params): real {
    match p.measured
    case Some(m) => if p.totalBytes == 0 then 0.0 else m.appends * (bytes as real / p.totalBytes as real)
    case None =>
      if p.avgAppend != 0.0 && p.actualRetention != 0.0
      then Ratio(bytes as real, p.avgAppend * p.actualRetention) else 0.0
  }

  /** Division, read as nothing where the divisor is zero. */
  function Ratio(a: real, b: real): real { if b == 0.0 then 0.0 else a / b }

  predicate Contains(s: string, sub: string) {
    |s| >= |sub| && (s[..|sub|] == sub || (s != "" && Contains(s[1..], sub)))
  }

  function ScaleBy(name: string, knobs: seq<Knob>, scale: real): real {
    if knobs == [] then scale
    else
      var last := knobs[|knobs| - 1];
      var s := ScaleBy(name, knobs[..|knobs| - 1], scale);
      if Contains(name, last.name) then s * last.factor else s
  }

  /** effective_scale. */
  function Scale(name: string, p: Params): real { ScaleBy(name, p.perContainer, p.volumeScale) }

  function Write(bytes: nat, scale: real, p: Params): real {
    (AppendRate(bytes, p) * scale * DAYS_PER_MONTH / 10000.0) * p.writePrice
  }

  function ModeledBytes(bytes: nat, scale: real, p: Params): real {
    AppendRate(bytes, p) * scale * p.avgAppend * p.modelRetention
  }

  function Storage(bytes: nat, scale: real, p: Params): real {
    (ModeledBytes(bytes, scale, p) / GIB) * p.storagePrice
  }

  /** other_ops_cost. */
  function OtherOps(p: Params): real {
    match p.measured
    case None => 0.0
    case Some(m) =>
      ((m.listOps + m.writeOps) * DAYS_PER_MONTH / 10000.0) * p.writePrice
      + (m.readOps * DAYS_PER_MONTH / 10000.0) * p.readPrice
  }

  // -------------------------------------------------------------- totals

  function Bytes(cs: seq<Container>): nat {
    if cs == [] then 0 else Bytes(cs[..|cs| - 1]) + cs[|cs| - 1].bytes
  }

  function Rates(cs: seq<Container>, p: Params): real {
    if cs == [] then 0.0 else Rates(cs[..|cs| - 1], p) + AppendRate(cs[|cs| - 1].bytes, p)
  }

  /** Storage, write cost and appends a month, over all containers. */
  datatype Sums = Sums(storage: real, write: real, appends: real)

  function Totals(cs: seq<Container>, p: Params): Sums {
    if cs == [] then Sums(0.0, 0.0, 0.0)
    else
      var t, c := Totals(cs[..|cs| - 1], p), cs[|cs| - 1];
      var s := Scale(c.name, p);
      Sums(t.storage + Storage(c.bytes, s, p), t.write + Write(c.bytes, s, p),
           t.appends + AppendRate(c.bytes, p) * s * DAYS_PER_MONTH)
  }

  /** The bill as it is today: scale one, the actual retention. */
  function Today(cs: seq<Container>, p: Params): real {
    if cs == [] then 0.0
    else
      var c := cs[|cs| - 1];
      Today(cs[..|cs| - 1], p)
        + (Storage(c.bytes, 1.0, p.(modelRetention := p.actualRetention))
           + Write(c.bytes, 1.0, p.(modelRetention := p.actualRetention)))
  }

  predicate Scenario(p: Params) {
    p.modelRetention != p.actualRetention || p.volumeScale != 1.0 || p.perContainer != []
  }

  function TotalCost(cs: seq<Container>, p: Params): real {
    Totals(cs, p).storage + Totals(cs, p).write + OtherOps(p) * if Scenario(p) then p.volumeScale else 1.0
  }

  function Baseline(cs: seq<Container>, p: Params): real { Today(cs, p) + OtherOps(p) }

  // -------------------------------------------------------------- conservation

  lemma Shares(a: real, x: real, b: real, t: real)
    requires t > 0.0
    ensures a * (x / t) + a * (b / t) == a * ((x + b) / t)
  {
    assert x / t + b / t == (x + b) / t;
  }

  lemma {:induction false} RatesShare(cs: seq<Container>, p: Params)
    requires p.measured.Some? && p.totalBytes > 0
    ensures Rates(cs, p) == p.measured.value.appends * (Bytes(cs) as real / p.totalBytes as real)
  {
    if cs != [] {
      RatesShare(cs[..|cs| - 1], p);
      Shares(p.measured.value.appends, Bytes(cs[..|cs| - 1]) as real, cs[|cs| - 1].bytes as real, p.totalBytes as real);
    }
  }

  lemma {:induction false} RatesNothing(cs: seq<Container>, p: Params)
    requires p.measured.Some? && p.totalBytes == 0
    ensures Rates(cs, p) == 0.0
  {
    if cs != [] { RatesNothing(cs[..|cs| - 1], p); }
  }

  lemma Whole(a: real, t: real)
    requires t != 0.0
    ensures a * (t / t) == a
  {
    assert t / t == 1.0;
  }

  /** On the measured path the containers' rates sum to the account's, exactly unless there
      are no bytes to share it by. */
  lemma RatesConserve(cs: seq<Container>, p: Params)
    requires p.measured.Some? && p.totalBytes == Bytes(cs)
    ensures Rates(cs, p) == p.measured.value.appends <==> Bytes(cs) > 0 || p.measured.value.appends == 0.0
  {
    if Bytes(cs) > 0 {
      RatesShare(cs, p);
      Whole(p.measured.value.appends, Bytes(cs) as real);
    } else {
      RatesNothing(cs, p);
    }
  }

  /** On the fallback path neutral knobs give back a container's measured bytes exactly when it
      has none, or neither the append size nor the retention is zero. */
  lemma FallbackReproduces(bytes: nat, p: Params)
    requires p.measured.None? && p.modelRetention == p.actualRetention
    ensures ModeledBytes(bytes, 1.0, p) == bytes as real <==>
      bytes == 0 || (p.avgAppend != 0.0 && p.actualRetention != 0.0)
  {
    if p.avgAppend != 0.0 && p.actualRetention != 0.0 {
      Inverse(bytes as real, p.avgAppend, p.actualRetention);
      var r := Ratio(bytes as real, p.avgAppend * p.actualRetention);
      assert r * 1.0 * p.avgAppend * p.modelRetention == r * (p.avgAppend * p.modelRetention);
    }
  }

  lemma Inverse(b: real, x: real, y: real)
    requires x != 0.0 && y != 0.0
    ensures Ratio(b, x * y) * (x * y) == b
  {
    assert x * y != 0.0;
  }

  /** With a retention of zero days the fallback makes any bytes vanish. */
  lemma ZeroRetentionForgets(bytes: nat, avg: real)
    requires bytes > 0
    ensures var p := Params(None, bytes, avg, 0.0, 0.0, 1.0, [], 1.0, 1.0, 1.0);
      ModeledBytes(bytes, 1.0, p) == 0.0 && ModeledBytes(bytes, 1.0, p) != bytes as real
  {
    FallbackReproduces(bytes, Params(None, bytes, avg, 0.0, 0.0, 1.0, [], 1.0, 1.0, 1.0));
  }

  /** On the measured path they do so exactly when the metered appends, kept for the actual
      retention, amount to the bytes resident. */
  lemma MeasuredReproduces(bytes: nat, p: Params)
    requires p.measured.Some? && 0 < bytes <= p.totalBytes && p.modelRetention == p.actualRetention
    ensures ModeledBytes(bytes, 1.0, p) == bytes as real <==>
      p.measured.value.appends * p.avgAppend * p.actualRetention == p.totalBytes as real
  {
    var b, t := bytes as real, p.totalBytes as real;
    var a, k := p.measured.value.appends, p.avgAppend * p.actualRetention;
    var s := b / t;
    assert s * t == b && s > 0.0;
    assert ModeledBytes(bytes, 1.0, p) == s * (a * k) by {
      assert AppendRate(bytes, p) == a * s;
      assert a * s * 1.0 * p.avgAppend * p.modelRetention == (a * s) * k;
    }
    assert p.measured.value.appends * p.avgAppend * p.actualRetention == a * k;
    Cancel(s, a * k, t);
  }

  /** Ten metered appends of one byte, kept for a day, do not explain five resident bytes: the
      model makes them ten. */
  lemma MeteredDiffers()
    ensures var p := Params(Some(Measured(10.0, 0.0, 0.0, 0.0)), 5, 1.0, 1.0, 1.0, 1.0, [], 1.0, 1.0, 1.0);
      ModeledBytes(5, 1.0, p) == 10.0 && ModeledBytes(5, 1.0, p) != 5.0
  {
    var p := Params(Some(Measured(10.0, 0.0, 0.0, 0.0)), 5, 1.0, 1.0, 1.0, 1.0, [], 1.0, 1.0, 1.0);
    MeasuredReproduces(5, p);
    assert 5.0 / 5.0 == 1.0;
  }

  lemma Cancel(s: real, x: real, y: real)
    requires s != 0.0
    ensures s * x == s * y <==> x == y
  {
    if s * x == s * y { assert s * (x - y) == 0.0; }
  }

  lemma SameRow(c: Container, p: Params, days: real)
    ensures var q := p.(modelRetention := days);
      && AppendRate(c.bytes, q) == AppendRate(c.bytes, p) && Scale(c.name, q) == Scale(c.name, p)
      && Write(c.bytes, Scale(c.name, q), q) == Write(c.bytes, Scale(c.name, p), p)
  {}

  /** Retention never changes the write cost or the number of appends. */
  lemma {:induction false} RetentionIsFree(cs: seq<Container>, p: Params, days: real)
    ensures Totals(cs, p).write == Totals(cs, p.(modelRetention := days)).write
    ensures Totals(cs, p).appends == Totals(cs, p.(modelRetention := days)).appends
  {
    hide AppendRate, Scale, Write;
    if cs != [] {
      RetentionIsFree(cs[..|cs| - 1], p, days);
      SameRow(cs[|cs| - 1], p, days);
    }
  }

  lemma {:induction false} NeutralTotals(cs: seq<Container>, p: Params)
    requires p.perContainer == [] && p.modelRetention == p.actualRetention
    ensures Totals(cs, p).storage + Totals(cs, p).write == p.volumeScale * Today(cs, p)
  {
    hide AppendRate;
    if cs != [] {
      NeutralTotals(cs[..|cs| - 1], p);
      NeutralRow(cs[|cs| - 1].bytes, p);
      assert p.(modelRetention := p.actualRetention) == p;
    }
  }

  lemma NeutralRow(bytes: nat, p: Params)
    ensures Storage(bytes, p.volumeScale, p) == p.volumeScale * Storage(bytes, 1.0, p)
    ensures Write(bytes, p.volumeScale, p) == p.volumeScale * Write(bytes, 1.0, p)
  {
    hide AppendRate;
    var r, v := AppendRate(bytes, p), p.volumeScale;
    Linear(r * v, r, v, DAYS_PER_MONTH / 10000.0 * p.writePrice);
    Linear(r * v, r, v, p.avgAppend * p.modelRetention / GIB * p.storagePrice);
  }

  lemma Linear(x: real, r: real, v: real, k: real)
    requires x == r * v
    ensures x * k == v * (r * k)
  {}

  /** With no knob set the reported total is today's; with the volume knob alone it is today's
      times the knob. */
  lemma VolumeIsLinear(cs: seq<Container>, p: Params)
    requires p.perContainer == [] && p.modelRetention == p.actualRetention
    ensures TotalCost(cs, p) == p.volumeScale * Baseline(cs, p)
    ensures !Scenario(p) ==> TotalCost(cs, p) == Baseline(cs, p)
  {
    hide Totals, Today, OtherOps;
    NeutralTotals(cs, p);
    var v, today, other := p.volumeScale, Today(cs, p), OtherOps(p);
    assert v * today + other * v == v * (today + other);
  }

  /** The same figures with every knob of the scenario back where it was. */
  function Unchanged(p: Params): Params {
    p.(modelRetention := p.actualRetention, volumeScale := 1.0, perContainer := [])
  }

  /** Today's figure does not depend on the scenario: it is the total of the unchanged one. */
  lemma BaselineExactly(cs: seq<Container>, p: Params)
    ensures Baseline(cs, p) == TotalCost(cs, Unchanged(p))
  {
    hide Totals, Today, Storage, Write;
    TodayUnchanged(cs, p);
    VolumeIsLinear(cs, Unchanged(p));
  }

  lemma {:induction false} TodayUnchanged(cs: seq<Container>, p: Params)
    ensures Today(cs, p) == Today(cs, Unchanged(p))
  {
    if cs != [] {
      TodayUnchanged(cs[..|cs| - 1], p);
      var q := p.(modelRetention := p.actualRetention);
      var b := cs[|cs| - 1].bytes;
      assert Unchanged(p).(modelRetention := Unchanged(p).actualRetention) == Unchanged(p);
      assert AppendRate(b, q) == AppendRate(b, Unchanged(p));
      hide AppendRate;
    }
  }

  // -------------------------------------------------------------- what is paid for at which price

  /** Gigabytes the containers keep, and tens of thousands of appends they see a month. */
  function Gigabytes(cs: seq<Container>, p: Params): real {
    if cs == [] then 0.0
    else
      var c := cs[|cs| - 1];
      Gigabytes(cs[..|cs| - 1], p)
      + AppendRate(c.bytes, p) * Scale(c.name, p) * p.avgAppend * p.modelRetention / 1073741824.0
  }

  function Appends(cs: seq<Container>, p: Params): real {
    if cs == [] then 0.0
    else
      var c := cs[|cs| - 1];
      Appends(cs[..|cs| - 1], p) + AppendRate(c.bytes, p) * Scale(c.name, p) * 30.44 / 10000.0
  }

  lemma {:induction false} TotalsApart(cs: seq<Container>, p: Params)
    ensures Totals(cs, p).storage == Gigabytes(cs, p) * p.storagePrice
    ensures Totals(cs, p).write == Appends(cs, p) * p.writePrice
    ensures Totals(cs, p).appends == Appends(cs, p) * 10000.0
  {
    hide AppendRate, Scale;
    if cs != [] {
      var c, init := cs[|cs| - 1], cs[..|cs| - 1];
      TotalsApart(init, p);
      var rate := AppendRate(c.bytes, p) * Scale(c.name, p);
      Distribute(Gigabytes(init, p), rate * p.avgAppend * p.modelRetention / 1073741824.0, p.storagePrice);
      Distribute(Appends(init, p), rate * 30.44 / 10000.0, p.writePrice);
    }
  }

  lemma Distribute(a: real, b: real, k: real)
    ensures (a + b) * k == a * k + b * k
  {}

  /** What each price is paid for: storage for what is kept, the write price for appends, listing and
      other writes, the read price for reads. The operations outside the containers follow the volume
      knob in a scenario only. */
  lemma PricesApart(cs: seq<Container>, p: Params)
    ensures var changed := p.modelRetention != p.actualRetention || p.volumeScale != 1.0 || p.perContainer != [];
      var ops := if p.measured.None? then Measured(0.0, 0.0, 0.0, 0.0) else p.measured.value;
      var other := (ops.listOps + ops.writeOps) * 30.44 / 10000.0;
      var fetched := ops.readOps * 30.44 / 10000.0;
      TotalCost(cs, p) ==
        Gigabytes(cs, p) * p.storagePrice + Appends(cs, p) * p.writePrice
        + (other * p.writePrice + fetched * p.readPrice) * (if changed then p.volumeScale else 1.0)
  {
    TotalsApart(cs, p);
    hide Totals, Gigabytes, Appends;
    if p.measured.None? { assert 0.0 * p.writePrice == 0.0 && 0.0 * p.readPrice == 0.0; }
  }

  predicate StandsAt(s: string, sub: string, i: nat) { i + |sub| <= |s| && s[i..i + |sub|] == sub }

  /** A name contains a text exactly when the text stands somewhere in it. */
  lemma {:induction false} ContainsExactly(s: string, sub: string)
    ensures Contains(s, sub) <==> exists i: nat :: StandsAt(s, sub, i)
  {
    if |s| >= |sub| {
      assert StandsAt(s, sub, 0) <==> s[..|sub|] == sub;
      if s != "" {
        ContainsExactly(s[1..], sub);
        if i: nat :| StandsAt(s[1..], sub, i) {
          assert s[i + 1..i + 1 + |sub|] == s[1..][i..i + |sub|];
          assert StandsAt(s, sub, i + 1);
        }
        if i: nat :| StandsAt(s, sub, i) && i > 0 {
          assert s[1..][i - 1..i - 1 + |sub|] == s[i..i + |sub|];
          assert StandsAt(s[1..], sub, i - 1);
        }
      }
    }
  }

  /** A container's scale is the volume knob times every knob whose name its own contains. */
  lemma ScaleExactly(name: string, knobs: seq<Knob>, last: Knob, scale: real)
    ensures ScaleBy(name, [], scale) == scale
    ensures ScaleBy(name, knobs + [last], scale) ==
      if exists i: nat :: StandsAt(name, last.name, i) then ScaleBy(name, knobs, scale) * last.factor
      else ScaleBy(name, knobs, scale)
  {
    assert (knobs + [last])[..|knobs|] == knobs;
    ContainsExactly(name, last.name);
    hide Contains, StandsAt;
  }

  /** An operation's total adds up its points, a gap counting for nothing. */
  lemma {:induction false} TotalsAdd(a: seq<Point>, b: seq<Point>, api: string)
    ensures TotalOf(a + b, api) == TotalOf(a, api) + TotalOf(b, api)
  {
    if b == [] {
      assert a + b == a;
    } else {
      TotalsAdd(a, b[..|b| - 1], api);
      assert (a + b)[..|a + b| - 1] == a + b[..|b| - 1];
    }
  }

  lemma OnePoint(pt: Point, api: string)
    ensures TotalOf([pt], api) ==
      match pt.total
      case Some(n) => (if pt.api == api then n else 0.0)
      case None => 0.0
  {
    assert [pt][..0] == [];
  }

  // -------------------------------------------------------------- metered operations

  /** One metric point: its operation, and its total unless it is a gap. */
  datatype Point = Point(api: string, total: Option<real>)

  function TotalOf(points: seq<Point>, api: string): real {
    if points == [] then 0.0
    else
      var last := points[|points| - 1];
      TotalOf(points[..|points| - 1], api) + if last.api == api && last.total.Some? then last.total.value else 0.0
  }

  /** parse_transactions: a gap is not a zero, and makes no entry. */
  method ParseTransactions(points: seq<Point>) returns (ops: map<string, real>)
    ensures forall api :: api in ops <==> exists pt :: pt in points && pt.api == api && pt.total.Some?
    ensures forall api :: api in ops ==> ops[api] == TotalOf(points, api)
  {
    ops := map[];
    for i := 0 to |points|
      invariant forall api :: api in ops <==> exists pt :: pt in points[..i] && pt.api == api && pt.total.Some?
      invariant forall api :: (if api in ops then ops[api] else 0.0) == TotalOf(points[..i], api)
    {
      assert points[..i + 1] == points[..i] + [points[i]] && points[..i + 1][..i] == points[..i];
      var pt := points[i];
      if pt.total.Some? {
        ops := ops[pt.api := (if pt.api in ops then ops[pt.api] else 0.0) + pt.total.value];
      }
    }
    assert points[..|points|] == points;
  }

  // -------------------------------------------------------------- the report's loops

  method EffectiveScale(name: string, p: Params) returns (s: real)
    ensures s == Scale(name, p)
  {
    s := p.volumeScale;
    for i := 0 to |p.perContainer|
      invariant s == ScaleBy(name, p.perContainer[..i], p.volumeScale)
    {
      assert p.perContainer[..i + 1][..i] == p.perContainer[..i];
      if Contains(name, p.perContainer[i].name) { s := s * p.perContainer[i].factor; }
    }
    assert p.perContainer[..|p.perContainer|] == p.perContainer;
  }

  /** The totals of render_terminal, over all containers. */
  method ReportTotals(cs: seq<Container>, p: Params) returns (total: real, baseline: real)
    ensures total == TotalCost(cs, p) && baseline == Baseline(cs, p)
    ensures !Scenario(p) ==> total == baseline
  {
    hide Storage, Write, AppendRate, Scale;
    var storage, write, appends := 0.0, 0.0, 0.0;
    baseline := 0.0;
    for i := 0 to |cs|
      invariant Sums(storage, write, appends) == Totals(cs[..i], p) && baseline == Today(cs[..i], p)
    {
      assert cs[..i + 1][..i] == cs[..i] && cs[..i + 1][i] == cs[i];
      var c := cs[i];
      var scale := EffectiveScale(c.name, p);
      storage := storage + Storage(c.bytes, scale, p);
      write := write + Write(c.bytes, scale, p);
      appends := appends + AppendRate(c.bytes, p) * scale * DAYS_PER_MONTH;
      var today := p.(modelRetention := p.actualRetention);
      baseline := baseline + (Storage(c.bytes, 1.0, today) + Write(c.bytes, 1.0, today));
    }
    assert cs[..|cs|] == cs;
    var other := OtherOps(p) * if Scenario(p) then p.volumeScale else 1.0;
    baseline := baseline + OtherOps(p);
    total := storage + write + other;
    if !Scenario(p) { VolumeIsLinear(cs, p); }
  }
}
