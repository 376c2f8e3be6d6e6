/** The statistics caches that feed the Prometheus counters. */
module Metrics {
  import opened Prelude
  import opened DeltaBook

  // ---------------------------------------------------------------- per-rule counters

  datatype Metric = BytesIn | BytesOut | DnsFailures | DatagramsIn | DatagramsOut | FlowsDropped | Failovers

  /** The cumulative readings of one report. */
  datatype Counters = Counters(
    bytesIn: nat, bytesOut: nat, dnsFailures: nat, datagramsIn: nat, datagramsOut: nat, flowsDropped: nat,
    failovers: nat)
  {
    function Get(m: Metric): nat {
      match m
      case BytesIn => bytesIn
      case BytesOut => bytesOut
      case DnsFailures => dnsFailures
      case DatagramsIn => datagramsIn
      case DatagramsOut => datagramsOut
      case FlowsDropped => flowsDropped
      case Failovers => failovers
    }
  }

  const ZERO := Counters(0, 0, 0, 0, 0, 0, 0)

  datatype RuleLabel = RuleLabel(client: string, rule: RuleId, owner: string)

  type Series = map<RuleLabel, nat>

  /** `inc_by` guarded by a positive delta. */
  function IncBy<L(==)>(series: map<L, nat>, l: L, delta: nat): map<L, nat> {
    if delta > 0 then series[l := At(series, l) + delta] else series
  }

  /** One metric's last readings. */
  ghost function Baselines(entries: map<RuleId, Counters>, m: Metric): map<RuleId, nat> {
    map r | r in entries :: entries[r].Get(m)
  }

  /** The labelled counters, one family per metric. */
  datatype Totals = Totals(
    bytesIn: Series, bytesOut: Series, dnsFailures: Series, datagramsIn: Series, datagramsOut: Series,
    flowsDropped: Series, failovers: Series)
  {
    function Get(m: Metric): Series {
      match m
      case BytesIn => bytesIn
      case BytesOut => bytesOut
      case DnsFailures => dnsFailures
      case DatagramsIn => datagramsIn
      case DatagramsOut => datagramsOut
      case FlowsDropped => flowsDropped
      case Failovers => failovers
    }
  }

  class RuleStatsCache {
    var entries: map<RuleId, Counters>
    var totals: Totals

    /** One metric's baselines and counters. */
    ghost function BookOf(m: Metric): Book<RuleId, RuleLabel>
      reads this
    {
      Book(Baselines(entries, m), totals.Get(m))
    }

    constructor ()
      ensures forall m :: BookOf(m) == Book(map[], map[])
    {
      entries, totals := map[], Totals(map[], map[], map[], map[], map[], map[], map[]);
    }

    /** One report advances every metric's book by its own reading. */
    method Observe(client: string, rule: RuleId, owner: string, reading: Counters)
      modifies this
      ensures forall m :: BookOf(m) == Bump(old(BookOf(m)), Obs(rule, RuleLabel(client, rule, owner), reading.Get(m)))
    {
      hide Baselines, IncBy, Rise;
      var prev := if rule in entries then entries[rule] else ZERO;
      var l := RuleLabel(client, rule, owner);
      var t := totals;
      t := t.(bytesIn := IncBy(t.bytesIn, l, Rise(prev.bytesIn, reading.bytesIn)));
      t := t.(bytesOut := IncBy(t.bytesOut, l, Rise(prev.bytesOut, reading.bytesOut)));
      t := t.(dnsFailures := IncBy(t.dnsFailures, l, Rise(prev.dnsFailures, reading.dnsFailures)));
      t := t.(datagramsIn := IncBy(t.datagramsIn, l, Rise(prev.datagramsIn, reading.datagramsIn)));
      t := t.(datagramsOut := IncBy(t.datagramsOut, l, Rise(prev.datagramsOut, reading.datagramsOut)));
      t := t.(flowsDropped := IncBy(t.flowsDropped, l, Rise(prev.flowsDropped, reading.flowsDropped)));
      t := t.(failovers := IncBy(t.failovers, l, Rise(prev.failovers, reading.failovers)));
      forall m ensures t.Get(m) == IncBy(totals.Get(m), l, Rise(prev.Get(m), reading.Get(m))) {
      }
      forall m
        ensures Book(Baselines(entries[rule := reading], m), t.Get(m)) == Bump(BookOf(m), Obs(rule, l, reading.Get(m)))
      {
        BumpByParts(entries, totals.Get(m), rule, l, reading, m);
      }
      entries, totals := entries[rule := reading], t;
    }

    /** `drop_rule`: the entry goes, and with it the rule's rows of every metric but the byte counters. */
    method DropRule(client: string, rule: RuleId, owner: string)
      modifies this
      ensures entries == old(entries) - {rule}
      ensures forall m :: totals.Get(m)
                == if rule in old(entries) && m != BytesIn && m != BytesOut
                   then old(totals.Get(m)) - {RuleLabel(client, rule, owner)} else old(totals.Get(m))
    {
      if rule in entries {
        var gone := {RuleLabel(client, rule, owner)};
        totals := totals.(dnsFailures := totals.dnsFailures - gone, datagramsIn := totals.datagramsIn - gone,
                          datagramsOut := totals.datagramsOut - gone, flowsDropped := totals.flowsDropped - gone,
                          failovers := totals.failovers - gone);
      }
      entries := entries - {rule};
    }
  }

  lemma BumpByParts(
    entries: map<RuleId, Counters>, series: Series, rule: RuleId, l: RuleLabel, reading: Counters, m: Metric)
    ensures var prev := if rule in entries then entries[rule] else ZERO;
            Bump(Book(Baselines(entries, m), series), Obs(rule, l, reading.Get(m)))
            == Book(Baselines(entries[rule := reading], m), IncBy(series, l, Rise(prev.Get(m), reading.Get(m))))
  {
    assert Baselines(entries[rule := reading], m) == Baselines(entries, m)[rule := reading.Get(m)];
  }

  lemma {:induction false} SumOfOne(m: map<RuleId, nat>, r: RuleId)
    ensures SumOver(m, (k: RuleId) => k, r) == At(m, r)
    decreases |m|
  {
    var id := (k: RuleId) => k;
    if r in m {
      SumTakeOut(m, id, r, r);
      assert (m - {r}).Keys == m.Keys - {r};
      SumOfOne(m - {r}, r);
    } else if m != map[] {
      var k :| k in m;
      SumTakeOut(m, id, r, k);
      assert (m - {k}).Keys == m.Keys - {k};
      SumOfOne(m - {k}, r);
    }
  }

  /**
   * Over any interleaving of reports about any rules, a rule's counter summed over the client names and
   * owners it was reported under stands at its last reading plus all its drops.
   */
  lemma RuleCounterFollowsReadings(obs: seq<Obs<RuleId, RuleLabel>>, r: RuleId)
    requires forall i :: 0 <= i < |obs| ==> obs[i].tag.rule == obs[i].key
    ensures var xs := ReadingsOf(obs, |obs|, r);
            SumOver(BumpAll(obs, |obs|).series, (l: RuleLabel) => l.rule, r) == Last(xs) + Drops(xs)
  {
    hide SumOver, BumpAll, Gains;
    var ofKey, ofLabel := (k: RuleId) => k, (l: RuleLabel) => l.rule;
    LabelsConserveGains(obs, |obs|, ofKey, ofLabel, r);
    SumOfOne(Gains(obs, |obs|), r);
    GainsAt(obs, |obs|, r);
    GainIsLastPlusDrops(ReadingsOf(obs, |obs|, r));
  }

  // ---------------------------------------------------------------- per-listener counters

  const PEEK_BUCKETS: nat := 15

  type ListenerKey = (ClientId, u16)
  type ListenerLabel = (string, u16)

  datatype Le = Upper(index: nat) | Inf

  datatype ListenerMetric = Miss | ParseFailures | SumMicros | Count

  datatype Report = Report(miss: nat, parseFailures: nat, buckets: seq<nat>, sumMicros: nat, count: nat) {
    function Get(m: ListenerMetric): nat {
      match m
      case Miss => miss
      case ParseFailures => parseFailures
      case SumMicros => sumMicros
      case Count => count
    }
  }

  const NO_REPORT := Report(0, 0, [], 0, 0)

  /** `get(idx).unwrap_or(0)`. */
  function BucketAt(bs: seq<nat>, i: nat): nat { if i < |bs| then bs[i] else 0 }

  /** One metric of the last reports. */
  ghost function LastReports(prev: map<ListenerKey, Report>, m: ListenerMetric): map<ListenerKey, nat> {
    map k | k in prev :: prev[k].Get(m)
  }

  type PerListener = map<ListenerLabel, nat>
  type PerBucket = map<(ListenerLabel, Le), nat>

  /** The listener counter families; a bucket series carries its upper bound as an extra label. */
  datatype ListenerSeries = ListenerSeries(
    miss: PerListener, parseFailures: PerListener, bucket: PerBucket, sumMicros: PerListener, count: PerListener)
  {
    function Get(m: ListenerMetric): PerListener {
      match m
      case Miss => miss
      case ParseFailures => parseFailures
      case SumMicros => sumMicros
      case Count => count
    }
  }

  /** The finite buckets: each rises by its own delta, and nothing else moves. */
  method RaiseBuckets(bucket: PerBucket, l: ListenerLabel, base: seq<nat>, next: seq<nat>)
    returns (r: PerBucket)
    ensures forall x: ListenerLabel, le: Le ::
              At(r, (x, le)) == At(bucket, (x, le)) + BucketDelta(l, base, next, PEEK_BUCKETS, x, le)
  {
    r := bucket;
    for i := 0 to PEEK_BUCKETS
      invariant forall x: ListenerLabel, le: Le ::
                  At(r, (x, le)) == At(bucket, (x, le)) + BucketDelta(l, base, next, i, x, le)
    {
      r := IncBy(r, (l, Upper(i)), Rise(BucketAt(base, i), BucketAt(next, i)));
    }
  }

  function BucketDelta(l: ListenerLabel, base: seq<nat>, next: seq<nat>, n: nat, x: ListenerLabel, le: Le): nat {
    if x == l && le.Upper? && le.index < n then Rise(BucketAt(base, le.index), BucketAt(next, le.index)) else 0
  }

  /** A report without a bucket reads as zero; only the 15 finite buckets of the report's own label rise. */
  lemma BucketsRiseByReading(l: ListenerLabel, base: seq<nat>, next: seq<nat>, x: ListenerLabel, i: nat)
    ensures var was, now := if i < |base| then base[i] else 0, if i < |next| then next[i] else 0;
            BucketDelta(l, base, next, PEEK_BUCKETS, x, Upper(i))
            == if x != l || i >= 15 || now <= was then 0 else now - was
    ensures BucketDelta(l, base, next, PEEK_BUCKETS, x, Inf) == 0
  {
  }

  class SniListenerStats {
    var prev: map<ListenerKey, Report>
    var series: ListenerSeries

    /** The `+Inf` bucket is the count, for every label. */
    ghost predicate Valid()
      reads this
    {
      InfIsCount(series.bucket, series.count)
    }

    ghost function BookOf(m: ListenerMetric): Book<ListenerKey, ListenerLabel>
      reads this
    {
      Book(LastReports(prev, m), series.Get(m))
    }

    constructor ()
      ensures Valid() && prev == map[] && series == ListenerSeries(map[], map[], map[], map[], map[])
    {
      prev, series := map[], ListenerSeries(map[], map[], map[], map[], map[]);
    }

    /** `observe_sni_listener`: deltas are taken per client id and port, and land on the display name and port. */
    method Observe(client: ClientId, name: string, port: u16, r: Report)
      requires Valid()
      modifies this
      ensures Valid()
      ensures forall m :: BookOf(m) == Bump(old(BookOf(m)), Obs((client, port), (name, port), r.Get(m)))
      ensures var k := (client, port);
              FiniteBucketsRose(old(series.bucket), series.bucket, (name, port),
                                if k in old(prev) then old(prev)[k].buckets else [], r.buckets)
    {
      hide InfIsCount, FiniteBucketsRose, LastReports, IncBy, Rise;
      var k, l := (client, port), (name, port);
      var before := if k in prev then prev[k] else NO_REPORT;
      var s := series;
      s := s.(miss := IncBy(s.miss, l, Rise(before.miss, r.miss)));
      s := s.(parseFailures := IncBy(s.parseFailures, l, Rise(before.parseFailures, r.parseFailures)));
      var raised := RaiseBuckets(s.bucket, l, before.buckets, r.buckets);
      s := s.(sumMicros := IncBy(s.sumMicros, l, Rise(before.sumMicros, r.sumMicros)));
      var delta := Rise(before.count, r.count);
      s := s.(bucket := IncBy(raised, (l, Inf), delta));
      s := s.(count := IncBy(s.count, l, delta));
      InfStaysCount(series.bucket, raised, series.count, l, before.buckets, r.buckets, delta);
      forall m ensures Book(LastReports(prev[k := r], m), s.Get(m)) == Bump(BookOf(m), Obs(k, l, r.Get(m))) {
        assert s.Get(m) == IncBy(series.Get(m), l, Rise(before.Get(m), r.Get(m)));
        ReportByParts(prev, series.Get(m), k, l, r, m);
      }
      prev, series := prev[k := r], s;
    }
  }

  ghost predicate InfIsCount(bucket: PerBucket, count: PerListener) {
    forall l: ListenerLabel :: At(bucket, (l, Inf)) == At(count, l)
  }

  /** Each finite bucket of the label rose by its own delta; no other finite bucket moved. */
  ghost predicate FiniteBucketsRose(was: PerBucket, now: PerBucket, l: ListenerLabel, base: seq<nat>, next: seq<nat>) {
    forall x: ListenerLabel, i: nat ::
      At(now, (x, Upper(i))) == At(was, (x, Upper(i))) + BucketDelta(l, base, next, PEEK_BUCKETS, x, Upper(i))
  }

  lemma InfStaysCount(
    was: PerBucket, raised: PerBucket, count: PerListener, l: ListenerLabel, base: seq<nat>, next: seq<nat>, delta: nat)
    requires InfIsCount(was, count)
    requires forall x: ListenerLabel, le: Le ::
               At(raised, (x, le)) == At(was, (x, le)) + BucketDelta(l, base, next, PEEK_BUCKETS, x, le)
    ensures InfIsCount(IncBy(raised, (l, Inf), delta), IncBy(count, l, delta))
    ensures FiniteBucketsRose(was, IncBy(raised, (l, Inf), delta), l, base, next)
  {
  }

  lemma ReportByParts(
    prev: map<ListenerKey, Report>, series: PerListener, k: ListenerKey, l: ListenerLabel, r: Report, m: ListenerMetric)
    ensures var before := if k in prev then prev[k] else NO_REPORT;
            Bump(Book(LastReports(prev, m), series), Obs(k, l, r.Get(m)))
            == Book(LastReports(prev[k := r], m), IncBy(series, l, Rise(before.Get(m), r.Get(m))))
  {
    assert LastReports(prev[k := r], m) == LastReports(prev, m)[k := r.Get(m)];
  }

  /**
   * Across renames and shared display names, a port's listener series summed over all client labels
   * equals the sum over client ids of what each one's readings gained.
   */
  lemma ListenerSeriesConserve(obs: seq<Obs<ListenerKey, ListenerLabel>>, port: u16)
    requires forall i :: 0 <= i < |obs| ==> obs[i].tag.1 == obs[i].key.1
    ensures SumOver(BumpAll(obs, |obs|).series, (l: ListenerLabel) => l.1, port)
         == SumOver(Gains(obs, |obs|), (k: ListenerKey) => k.1, port)
  {
    hide SumOver, BumpAll, Gains;
    LabelsConserveGains(obs, |obs|, (k: ListenerKey) => k.1, (l: ListenerLabel) => l.1, port);
  }
}
