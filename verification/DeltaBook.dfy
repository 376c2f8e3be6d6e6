/** Delta accounting: cumulative readings per source become labelled monotone counters. */
module DeltaBook {
  import opened Prelude

  /** `new.saturating_sub(prev)`. */
  function Rise(prev: nat, new_: nat): (d: nat) { if new_ > prev then new_ - prev else 0 }

  function Drop(prev: nat, new_: nat): (d: nat) { Rise(new_, prev) }

  function At<K(==)>(m: map<K, nat>, k: K): (v: nat) { if k in m then m[k] else 0 }

  /** The last reading per source, and the counters per label. */
  datatype Book<K(==), L(==)> = Book(prev: map<K, nat>, series: map<L, nat>)

  datatype Obs<K, L> = Obs(key: K, tag: L, value: nat)

  /** One report: the rise since the source's last reading lands on the report's label. */
  function Bump<K(==), L(==)>(b: Book<K, L>, o: Obs<K, L>): (b': Book<K, L>) {
    var d := Rise(At(b.prev, o.key), o.value);
    Book(b.prev[o.key := o.value], if d > 0 then b.series[o.tag := At(b.series, o.tag) + d] else b.series)
  }

  /** The book after the first `n` reports. */
  function BumpAll<K(==), L(==)>(obs: seq<Obs<K, L>>, n: nat): (b: Book<K, L>)
    requires n <= |obs|
  {
    if n == 0 then Book(map[], map[]) else Bump(BumpAll(obs, n - 1), obs[n - 1])
  }

  // ---------------------------------------------------------------- one source

  function Last(xs: seq<nat>): (x: nat) { if xs == [] then 0 else xs[|xs| - 1] }

  /** Everything a source's readings add to its counters, from a zero baseline. */
  function Gain(xs: seq<nat>): (g: nat) {
    if xs == [] then 0 else Gain(xs[..|xs| - 1]) + Rise(Last(xs[..|xs| - 1]), Last(xs))
  }

  function Drops(xs: seq<nat>): (d: nat) {
    if xs == [] then 0 else Drops(xs[..|xs| - 1]) + Drop(Last(xs[..|xs| - 1]), Last(xs))
  }

  /** A counter fed x1..xn stands at xn plus all the drops on the way. */
  lemma {:induction false} GainIsLastPlusDrops(xs: seq<nat>)
    ensures Gain(xs) == Last(xs) + Drops(xs)
  {
    if xs != [] { GainIsLastPlusDrops(xs[..|xs| - 1]); }
  }

  predicate NonDecreasing(xs: seq<nat>) { forall i, j :: 0 <= i < j < |xs| ==> xs[i] <= xs[j] }

  /** One client process: its cumulative readings, at least one, never decreasing. */
  predicate IsProcess(xs: seq<nat>) { xs != [] && NonDecreasing(xs) }

  function Flatten(ps: seq<seq<nat>>): (xs: seq<nat>) {
    if ps == [] then [] else Flatten(ps[..|ps| - 1]) + ps[|ps| - 1]
  }

  /** What the processes really counted. */
  function TrueTotal(ps: seq<seq<nat>>): (t: nat) {
    if ps == [] then 0 else TrueTotal(ps[..|ps| - 1]) + Last(ps[|ps| - 1])
  }

  function Min(a: nat, b: nat): nat { if a < b then a else b }

  /** What restarts hide: at each one, the part of the first new reading that stays below the last old one. */
  function Hidden(ps: seq<seq<nat>>): (h: nat)
    requires forall i :: 0 <= i < |ps| ==> IsProcess(ps[i])
  {
    if |ps| <= 1 then 0
    else
      assert IsProcess(ps[|ps| - 1]);
      Hidden(ps[..|ps| - 1]) + Min(Last(ps[|ps| - 2]), ps[|ps| - 1][0])
  }

  lemma {:induction false} GainOfAppend(xs: seq<nat>, p: seq<nat>)
    requires IsProcess(p)
    ensures Gain(xs + p) + Min(Last(xs), p[0]) == Gain(xs) + Last(p)
    ensures Last(xs + p) == Last(p)
    decreases |p|
  {
    var init := p[..|p| - 1];
    assert (xs + p)[..|xs + p| - 1] == xs + init;
    if init == [] {
      assert xs + init == xs;
    } else {
      assert IsProcess(init);
      GainOfAppend(xs, init);
      assert init[|init| - 1] <= p[|p| - 1];
    }
  }

  /**
   * For any pattern of restarts the counter is the true total less what the restarts hide; so it never
   * exceeds the total, and meets it exactly when no restart hides anything.
   */
  lemma {:induction false} CounterUnderRestarts(ps: seq<seq<nat>>)
    requires forall i :: 0 <= i < |ps| ==> IsProcess(ps[i])
    ensures Gain(Flatten(ps)) + Hidden(ps) == TrueTotal(ps)
    ensures Last(Flatten(ps)) == if ps == [] then 0 else Last(ps[|ps| - 1])
  {
    if ps != [] {
      var init, p := ps[..|ps| - 1], ps[|ps| - 1];
      CounterUnderRestarts(init);
      GainOfAppend(Flatten(init), p);
      if init != [] { assert init[|init| - 1] == ps[|ps| - 2]; }
    }
  }

  lemma CounterNeverExceedsTotal(ps: seq<seq<nat>>)
    requires forall i :: 0 <= i < |ps| ==> IsProcess(ps[i])
    ensures Gain(Flatten(ps)) <= TrueTotal(ps)
    ensures Gain(Flatten(ps)) == TrueTotal(ps) <==> Hidden(ps) == 0
    ensures |ps| == 1 ==> Gain(Flatten(ps)) == TrueTotal(ps)
  {
    CounterUnderRestarts(ps);
  }

  // ---------------------------------------------------------------- many sources, many labels

  /** The readings of one source among the first `n` reports, in order. */
  function ReadingsOf<K(==), L>(obs: seq<Obs<K, L>>, n: nat, k: K): (xs: seq<nat>)
    requires n <= |obs|
  {
    if n == 0 then []
    else ReadingsOf(obs, n - 1, k) + if obs[n - 1].key == k then [obs[n - 1].value] else []
  }

  lemma {:induction false} PrevIsLastReading<K, L>(obs: seq<Obs<K, L>>, n: nat, k: K)
    requires n <= |obs|
    ensures At(BumpAll(obs, n).prev, k) == Last(ReadingsOf(obs, n, k))
    ensures k in BumpAll(obs, n).prev <==> ReadingsOf(obs, n, k) != []
  {
    if n > 0 { PrevIsLastReading(obs, n - 1, k); }
  }

  /** Sum of the values whose key falls in group `x`. */
  ghost function SumOver<K(!new), G(!new)>(m: map<K, nat>, group: K -> G, x: G): (t: nat)
    decreases |m|
  {
    if m == map[] then 0
    else
      var k :| k in m;
      assert (m - {k}).Keys == m.Keys - {k};
      SumOver(m - {k}, group, x) + if group(k) == x then m[k] else 0
  }

  /** The choice of key inside `SumOver` does not matter. */
  lemma {:induction false} SumTakeOut<K(!new), G(!new)>(m: map<K, nat>, group: K -> G, x: G, k: K)
    requires k in m
    ensures SumOver(m, group, x) == SumOver(m - {k}, group, x) + if group(k) == x then m[k] else 0
    decreases |m|
  {
    var c :| c in m && SumOver(m, group, x) == SumOver(m - {c}, group, x) + if group(c) == x then m[c] else 0;
    if c != k {
      assert (m - {c}).Keys == m.Keys - {c} && (m - {k}).Keys == m.Keys - {k};
      SumTakeOut(m - {c}, group, x, k);
      SumTakeOut(m - {k}, group, x, c);
      assert m - {c} - {k} == m - {k} - {c};
    }
  }

  lemma SumUpdate<K(!new), G(!new)>(m: map<K, nat>, group: K -> G, x: G, k: K, v: nat)
    ensures SumOver(m[k := v], group, x) + (if group(k) == x then At(m, k) else 0)
         == SumOver(m, group, x) + if group(k) == x then v else 0
  {
    SumTakeOut(m[k := v], group, x, k);
    if k in m {
      SumTakeOut(m, group, x, k);
      assert m[k := v] - {k} == m - {k};
    } else {
      assert m[k := v] - {k} == m;
    }
  }

  /** What each source has contributed in the first `n` reports. */
  ghost function Gains<K(!new), L(!new)>(obs: seq<Obs<K, L>>, n: nat): map<K, nat>
    requires n <= |obs|
  {
    map k | k in BumpAll(obs, n).prev :: Gain(ReadingsOf(obs, n, k))
  }

  lemma GainsAt<K(!new), L(!new)>(obs: seq<Obs<K, L>>, n: nat, k: K)
    requires n <= |obs|
    ensures At(Gains(obs, n), k) == Gain(ReadingsOf(obs, n, k))
  {
    PrevIsLastReading(obs, n, k);
  }

  lemma GainStepAt<K(!new), L(!new)>(obs: seq<Obs<K, L>>, n: nat, k: K)
    requires n < |obs|
    ensures Gain(ReadingsOf(obs, n + 1, k))
         == Gain(ReadingsOf(obs, n, k)) + if k == obs[n].key then Rise(At(BumpAll(obs, n).prev, k), obs[n].value) else 0
  {
    PrevIsLastReading(obs, n, k);
    var xs, ys := ReadingsOf(obs, n, k), ReadingsOf(obs, n + 1, k);
    if k == obs[n].key {
      assert ys[..|ys| - 1] == xs;
    } else {
      assert ys == xs;
    }
  }

  lemma GainsStep<K(!new), L(!new)>(obs: seq<Obs<K, L>>, n: nat)
    requires n < |obs|
    ensures var o, before := obs[n], Gains(obs, n);
            Gains(obs, n + 1) == before[o.key := At(before, o.key) + Rise(At(BumpAll(obs, n).prev, o.key), o.value)]
  {
    hide Gain, ReadingsOf;
    var o, after := obs[n], Gains(obs, n + 1);
    forall k | k in after
      ensures after[k] == At(Gains(obs, n), k) + if k == o.key then Rise(At(BumpAll(obs, n).prev, k), o.value) else 0
    {
      GainStepAt(obs, n, k);
      GainsAt(obs, n, k);
    }
    assert after.Keys == Gains(obs, n).Keys + {o.key};
  }

  /** One report adds the same amount to its label's group and to its source's. */
  lemma ConserveStep<K(!new), L(!new), G(!new)>(
    b: Book<K, L>, gains: map<K, nat>, o: Obs<K, L>, ofKey: K -> G, ofLabel: L -> G, x: G)
    requires ofKey(o.key) == ofLabel(o.tag)
    requires SumOver(b.series, ofLabel, x) == SumOver(gains, ofKey, x)
    ensures SumOver(Bump(b, o).series, ofLabel, x)
         == SumOver(gains[o.key := At(gains, o.key) + Rise(At(b.prev, o.key), o.value)], ofKey, x)
  {
    hide SumOver;
    var d := Rise(At(b.prev, o.key), o.value);
    SumUpdate(gains, ofKey, x, o.key, At(gains, o.key) + d);
    SumUpdate(b.series, ofLabel, x, o.tag, At(b.series, o.tag) + d);
  }

  lemma NothingGained<K(!new), L(!new)>(obs: seq<Obs<K, L>>)
    ensures Gains(obs, 0) == map[]
  {
  }

  lemma EmptySum<K(!new), G(!new)>(group: K -> G, x: G)
    ensures SumOver(map[], group, x) == 0
  {
  }

  /** Every report's label lies in the same group as its source. */
  ghost predicate Grouped<K(!new), L(!new), G(!new)>(obs: seq<Obs<K, L>>, ofKey: K -> G, ofLabel: L -> G) {
    forall i :: 0 <= i < |obs| ==> ofKey(obs[i].key) == ofLabel(obs[i].tag)
  }

  lemma GroupedAt<K(!new), L(!new), G(!new)>(obs: seq<Obs<K, L>>, i: nat, ofKey: K -> G, ofLabel: L -> G)
    requires Grouped(obs, ofKey, ofLabel) && i < |obs|
    ensures ofKey(obs[i].key) == ofLabel(obs[i].tag)
  {
  }

  /**
   * Conservation: when every report's label lies in the same group as its source, the counters of a
   * group sum to the gains of its sources, however labels are shared or renamed over time.
   */
  lemma {:induction false} LabelsConserveGains<K(!new), L(!new), G(!new)>(
    obs: seq<Obs<K, L>>, n: nat, ofKey: K -> G, ofLabel: L -> G, x: G)
    requires n <= |obs| && Grouped(obs, ofKey, ofLabel)
    ensures SumOver(BumpAll(obs, n).series, ofLabel, x) == SumOver(Gains(obs, n), ofKey, x)
  {
    hide SumOver, Gains, Bump, Grouped;
    if n == 0 {
      NothingGained(obs);
      EmptySum(ofKey, x);
      EmptySum(ofLabel, x);
    } else {
      LabelsConserveGains(obs, n - 1, ofKey, ofLabel, x);
      GainsStep(obs, n - 1);
      GroupedAt(obs, n - 1, ofKey, ofLabel);
      ConserveStep(BumpAll(obs, n - 1), Gains(obs, n - 1), obs[n - 1], ofKey, ofLabel, x);
    }
  }

  /** Counters never go down. */
  lemma BumpIsMonotone<K, L>(b: Book<K, L>, o: Obs<K, L>, l: L)
    ensures At(Bump(b, o).series, l) >= At(b.series, l)
  {
  }
}
