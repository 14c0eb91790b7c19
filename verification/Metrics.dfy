/**
  The request metrics: each observation is stored in its first fitting bucket only,
  and buckets are cumulated when they are rendered.  Durations are reals.
 */
module Metrics {
  import opened Wrappers
  import Numerals

  datatype Labels = Labels(method_: string, route: string, statusClass: string)

  datatype Histogram = Histogram(labels: Labels, bucketCounts: seq<nat>, count: nat, sum: real)

  datatype Observation = Observation(labels: Labels, durationMs: real)

  const DURATION_BUCKETS_MS: seq<real> :=
    [5.0, 10.0, 25.0, 50.0, 100.0, 250.0, 500.0, 1000.0, 2500.0, 5000.0, 10000.0]

  function MetricKey(labels: Labels): string {
    labels.method_ + "|" + labels.route + "|" + labels.statusClass
  }

  /** Index of the first bound that is at least the duration, or the number of bounds. */
  function FirstFit(bounds: seq<real>, duration: real): (i: nat)
    ensures i <= |bounds|
  {
    if bounds == [] || duration <= bounds[0] then 0 else 1 + FirstFit(bounds[1..], duration)
  }

  function Empty(labels: Labels, n: nat): Histogram {
    Histogram(labels, seq(n, _ => 0), 0, 0.0)
  }

  function Observe(bounds: seq<real>, h: Histogram, duration: real): Histogram
    requires |h.bucketCounts| == |bounds|
  {
    var i := FirstFit(bounds, duration);
    h.(bucketCounts := if i < |bounds| then h.bucketCounts[i := h.bucketCounts[i] + 1] else h.bucketCounts,
       count := h.count + 1,
       sum := h.sum + duration)
  }

  /** The rendered lines of one histogram: a cumulative count per bound, then +Inf, sum and count. */
  datatype Rendering = Rendering(buckets: seq<nat>, inf: nat, sum: real, count: nat)

  function SumTo(counts: seq<nat>, n: nat): nat
    requires n <= |counts|
  {
    if n == 0 then 0 else SumTo(counts, n - 1) + counts[n - 1]
  }

  /** The count of one bucket and all below it. */
  function Cumulative(counts: seq<nat>, i: nat): nat
    requires i < |counts|
  {
    SumTo(counts, i + 1)
  }

  function Render(h: Histogram): Rendering {
    Rendering(seq(|h.bucketCounts|, i requires 0 <= i < |h.bucketCounts| => Cumulative(h.bucketCounts, i)),
              h.count, h.sum, h.count)
  }

  ghost predicate Ascending(bounds: seq<real>) {
    forall i, j :: 0 <= i < j < |bounds| ==> bounds[i] < bounds[j]
  }

  class MetricsRegistry {
    const bounds: seq<real>
    var counters: map<string, nat>
    var histograms: map<string, Histogram>

    constructor (bounds: seq<real>)
      ensures this.bounds == bounds && counters == map[] && histograms == map[]
      ensures Valid()
    {
      this.bounds := bounds;
      counters, histograms := map[], map[];
    }

    ghost predicate Valid()
      reads this
    {
      && counters.Keys == histograms.Keys
      && forall k <- histograms :: |histograms[k].bucketCounts| == |bounds|
    }

    method RecordHttpRequest(labels: Labels, durationMs: real)
      requires Valid()
      modifies this
      ensures Valid()
      ensures histograms == Recorded(bounds, old(histograms), Observation(labels, durationMs))
      ensures counters == old(counters)[MetricKey(labels) :=
                1 + if MetricKey(labels) in old(counters) then old(counters)[MetricKey(labels)] else 0]
    {
      hide Render, SumTo, MetricKey;
      var key := MetricKey(labels);
      counters := counters[key := 1 + if key in counters then counters[key] else 0];
      var histogram := if key in histograms then histograms[key] else Empty(labels, |bounds|);
      var counts := histogram.bucketCounts;
      var index := 0;
      while index < |bounds|
        invariant 0 <= index <= |bounds| && counts == histogram.bucketCounts
        invariant FirstFit(bounds, durationMs) == index + FirstFit(bounds[index..], durationMs)
      {
        if durationMs <= bounds[index] {
          counts := counts[index := counts[index] + 1];
          break;
        }
        assert bounds[index..][1..] == bounds[index + 1..];
        index := index + 1;
      }
      var observed := histogram.(bucketCounts := counts, count := histogram.count + 1, sum := histogram.sum + durationMs);
      assert observed == Observe(bounds, histogram, durationMs);
      hide Observe, FirstFit;
      histograms := histograms[key := observed];
    }

    /** The histogram part of the text format: a running count over the buckets. */
    method RenderHistogram(key: string) returns (r: Rendering)
      requires Valid() && key in histograms
      ensures r == Render(histograms[key])
    {
      var metric := histograms[key];
      var cumulative := 0;
      var lines: seq<nat> := [];
      for index := 0 to |bounds|
        invariant |lines| == index && cumulative == SumTo(metric.bucketCounts, index)
        invariant forall i :: 0 <= i < index ==> lines[i] == Cumulative(metric.bucketCounts, i)
      {
        cumulative := cumulative + metric.bucketCounts[index];
        lines := lines + [cumulative];
      }
      return Rendering(lines, metric.count, metric.sum, metric.count);
    }
  }

  function Recorded(bounds: seq<real>, hs: map<string, Histogram>, o: Observation): map<string, Histogram>
    requires forall k <- hs :: |hs[k].bucketCounts| == |bounds|
  {
    var key := MetricKey(o.labels);
    hs[key := Observe(bounds, if key in hs then hs[key] else Empty(o.labels, |bounds|), o.durationMs)]
  }

  // ---- the registry after a history of observations

  function Registry(bounds: seq<real>, history: seq<Observation>): (hs: map<string, Histogram>)
    ensures forall k <- hs :: |hs[k].bucketCounts| == |bounds|
  {
    if history == [] then map[]
    else Recorded(bounds, Registry(bounds, history[..|history| - 1]), history[|history| - 1])
  }

  /** The durations observed under a key, oldest first. */
  function Durations(history: seq<Observation>, key: string): seq<real> {
    if history == [] then []
    else
      var o := history[|history| - 1];
      Durations(history[..|history| - 1], key) + if MetricKey(o.labels) == key then [o.durationMs] else []
  }

  function AtMost(ds: seq<real>, bound: real): nat {
    if ds == [] then 0 else AtMost(ds[..|ds| - 1], bound) + if ds[|ds| - 1] <= bound then 1 else 0
  }

  function Total(ds: seq<real>): real {
    if ds == [] then 0.0 else Total(ds[..|ds| - 1]) + ds[|ds| - 1]
  }

  lemma {:induction false} FirstFitIsFirst(bounds: seq<real>, duration: real, i: nat)
    requires Ascending(bounds) && i < |bounds|
    ensures FirstFit(bounds, duration) <= i <==> duration <= bounds[i]
  {
    if duration > bounds[0] && i > 0 {
      FirstFitIsFirst(bounds[1..], duration, i - 1);
    }
  }

  lemma {:induction false} SumToUpdate(counts: seq<nat>, i: nat, n: nat)
    requires i < |counts| && n <= |counts|
    ensures SumTo(counts[i := counts[i] + 1], n) == SumTo(counts, n) + if i < n then 1 else 0
  {
    if n > 0 {
      SumToUpdate(counts, i, n - 1);
    }
  }

  lemma {:induction false} SumOfZeros(m: nat, n: nat)
    requires n <= m
    ensures SumTo(seq(m, _ => 0), n) == 0
  {
    if n > 0 {
      SumOfZeros(m, n - 1);
    }
  }

  /** The histogram stored under a key counts exactly the durations of that key. */
  ghost predicate Faithful(bounds: seq<real>, h: Histogram, ds: seq<real>) {
    && |h.bucketCounts| == |bounds|
    && h.count == |ds| && h.sum == Total(ds)
    && forall i :: 0 <= i < |bounds| ==> Cumulative(h.bucketCounts, i) == AtMost(ds, bounds[i])
  }

  lemma EmptyIsFaithful(bounds: seq<real>, labels: Labels)
    ensures Faithful(bounds, Empty(labels, |bounds|), [])
  {
    forall i | 0 <= i < |bounds| ensures Cumulative(Empty(labels, |bounds|).bucketCounts, i) == 0 {
      SumOfZeros(|bounds|, i + 1);
    }
  }

  lemma ObserveIsFaithful(bounds: seq<real>, h: Histogram, ds: seq<real>, d: real)
    requires Ascending(bounds) && Faithful(bounds, h, ds)
    ensures Faithful(bounds, Observe(bounds, h, d), ds + [d])
  {
    assert (ds + [d])[..|ds|] == ds;
    var k := FirstFit(bounds, d);
    forall i | 0 <= i < |bounds|
      ensures Cumulative(Observe(bounds, h, d).bucketCounts, i) == AtMost(ds + [d], bounds[i])
    {
      FirstFitIsFirst(bounds, d, i);
      if k < |bounds| {
        SumToUpdate(h.bucketCounts, k, i + 1);
      }
    }
  }

  lemma {:induction false} RegistryIsFaithful(bounds: seq<real>, history: seq<Observation>, key: string)
    requires Ascending(bounds)
    ensures key in Registry(bounds, history) <==> Durations(history, key) != []
    ensures key in Registry(bounds, history) ==>
              && Faithful(bounds, Registry(bounds, history)[key], Durations(history, key))
              && MetricKey(Registry(bounds, history)[key].labels) == key
  {
    if history != [] {
      hide Faithful, MetricKey;
      var front, o := history[..|history| - 1], history[|history| - 1];
      RegistryIsFaithful(bounds, front, key);
      if MetricKey(o.labels) == key {
        var before := Registry(bounds, front);
        var ds := Durations(front, key);
        EmptyIsFaithful(bounds, o.labels);
        ObserveIsFaithful(bounds, if key in before then before[key] else Empty(o.labels, |bounds|), ds, o.durationMs);
      } else {
        assert Durations(history, key) == Durations(front, key);
      }
    }
  }

  /**
    Main result: every rendered bucket holds the number of observations of its key at
    or below the bound, buckets never decrease, and +Inf is the total count.
   */
  lemma RenderingCountsObservations(bounds: seq<real>, history: seq<Observation>, key: string)
    requires Ascending(bounds) && key in Registry(bounds, history)
    ensures var r, ds := Render(Registry(bounds, history)[key]), Durations(history, key);
            && |r.buckets| == |bounds|
            && (forall i :: 0 <= i < |bounds| ==> r.buckets[i] == AtMost(ds, bounds[i]))
            && (forall i, j :: 0 <= i <= j < |bounds| ==> r.buckets[i] <= r.buckets[j] <= r.inf)
            && r.inf == r.count == |ds| && r.sum == Total(ds)
  {
    hide AtMost, SumTo, Registry, Durations, Total;
    RegistryIsFaithful(bounds, history, key);
    var ds := Durations(history, key);
    forall i, j | 0 <= i <= j < |bounds| ensures AtMost(ds, bounds[i]) <= AtMost(ds, bounds[j]) <= |ds| {
      AtMostGrows(ds, bounds[i], bounds[j]);
    }
  }

  lemma {:induction false} AtMostGrows(ds: seq<real>, low: real, high: real)
    requires low <= high
    ensures AtMost(ds, low) <= AtMost(ds, high) <= |ds|
  {
    if ds != [] {
      AtMostGrows(ds[..|ds| - 1], low, high);
    }
  }

  lemma BucketsAscend()
    ensures Ascending(DURATION_BUCKETS_MS)
  {
    var b := DURATION_BUCKETS_MS;
    assert b[0] < b[1] < b[2] < b[3] < b[4] < b[5] < b[6] < b[7] < b[8] < b[9] < b[10];
  }

  // ---- label sets and keys

  predicate PipeFree(s: string) {
    '|' !in s
  }

  /** The class the request middleware makes of a status code. */
  function StatusClass(code: nat): string {
    Numerals.Show(code / 100) + "xx"
  }

  lemma StatusClassesArePipeFree(code: nat)
    ensures PipeFree(StatusClass(code))
  {
    Numerals.ShowReads(code / 100);
    assert Numerals.DigitValue('|') == 99;
  }

  /** Labels whose method and status class hold no separator; the route may. */
  predicate Separable(labels: Labels) {
    PipeFree(labels.method_) && PipeFree(labels.statusClass)
  }

  function Joined(a: string, b: string): string {
    a + "|" + b
  }

  /** The part after the last separator is unique. */
  lemma TailsMatch(k: string, c: string, d: string)
    requires |c| < |k| && |d| < |k| && PipeFree(c) && PipeFree(d)
    requires k[|k| - |c|..] == c && k[|k| - |d|..] == d
    requires k[|k| - |c| - 1] == '|' && k[|k| - |d| - 1] == '|'
    ensures c == d
  {
    assert forall i :: |k| - |c| <= i < |k| ==> k[i] == c[i - (|k| - |c|)] && k[i] in c;
    assert forall i :: |k| - |d| <= i < |k| ==> k[i] == d[i - (|k| - |d|)] && k[i] in d;
  }

  lemma LongerMethodAbsorbs(m1: string, r1: string, m2: string, r2: string)
    requires Joined(m1, r1) == Joined(m2, r2) && |m1| < |m2|
    ensures exists w :: m2 == Joined(m1, w) && r1 == Joined(w, r2)
  {
    var key := Joined(m1, r1);
    var w := m2[|m1| + 1..];
    assert m1 == key[..|m1|] && m2 == key[..|m2|] && key[|m1|] == '|' && key[|m2|] == '|';
    assert m2 == Joined(m1, w);
    assert r1 == key[|m1| + 1..] == Joined(w, r2);
  }

  /** The method of `b` continues that of `a` across a separator, at the expense of the route. */
  ghost predicate MethodContinues(a: Labels, b: Labels) {
    exists w :: b.method_ == Joined(a.method_, w) && a.route == Joined(w, b.route)
  }

  /** With status classes as the middleware makes them, exactly when two label sets share a key. */
  lemma SharedKeysExactly(a: Labels, b: Labels)
    requires PipeFree(a.statusClass) && PipeFree(b.statusClass)
    ensures MetricKey(a) == MetricKey(b) <==>
              a == b || (a.statusClass == b.statusClass && (MethodContinues(a, b) || MethodContinues(b, a)))
  {
    hide PipeFree;
    if MetricKey(a) == MetricKey(b) {
      var k := MetricKey(a);
      TailsMatch(k, a.statusClass, b.statusClass);
      var front := k[..|k| - |a.statusClass| - 1];
      assert front == Joined(a.method_, a.route) == Joined(b.method_, b.route);
      if |a.method_| < |b.method_| {
        LongerMethodAbsorbs(a.method_, a.route, b.method_, b.route);
      } else if |b.method_| < |a.method_| {
        LongerMethodAbsorbs(b.method_, b.route, a.method_, a.route);
      } else {
        assert a.method_ == front[..|a.method_|] && a.route == front[|a.method_| + 1..];
        assert b.method_ == front[..|b.method_|] && b.route == front[|b.method_| + 1..];
      }
    } else if a.statusClass == b.statusClass {
      ContinuedSharesKey(a, b);
      ContinuedSharesKey(b, a);
    }
  }

  lemma ContinuedSharesKey(a: Labels, b: Labels)
    ensures a.statusClass == b.statusClass && MethodContinues(a, b) ==> MetricKey(a) == MetricKey(b)
  {
    forall w | b.method_ == Joined(a.method_, w) && a.route == Joined(w, b.route)
      ensures Joined(a.method_, a.route) == Joined(b.method_, b.route)
    {
      assert a.method_ + "|" + (w + "|" + b.route) == (a.method_ + "|" + w) + "|" + b.route;
    }
  }

  lemma SeparableKeysAreInjective(a: Labels, b: Labels)
    requires Separable(a) && Separable(b) && MetricKey(a) == MetricKey(b)
    ensures a == b
  {
    SharedKeysExactly(a, b);
    forall w ensures a.method_ != Joined(b.method_, w) && b.method_ != Joined(a.method_, w) {
      assert Joined(b.method_, w)[|b.method_|] == '|' && Joined(a.method_, w)[|a.method_|] == '|';
    }
  }

  /** The durations observed with exactly these labels. */
  function DurationsOf(history: seq<Observation>, labels: Labels): seq<real> {
    if history == [] then []
    else
      var o := history[|history| - 1];
      DurationsOf(history[..|history| - 1], labels) + if o.labels == labels then [o.durationMs] else []
  }

  lemma {:induction false} KeysSeparateLabels(history: seq<Observation>, labels: Labels)
    requires Separable(labels) && forall i :: 0 <= i < |history| ==> Separable(history[i].labels)
    ensures Durations(history, MetricKey(labels)) == DurationsOf(history, labels)
  {
    if history != [] {
      hide MetricKey;
      var o := history[|history| - 1];
      KeysSeparateLabels(history[..|history| - 1], labels);
      if MetricKey(o.labels) == MetricKey(labels) {
        SeparableKeysAreInjective(o.labels, labels);
      }
    }
  }

  /** For every label set: the bucket under a bound counts the observations of exactly those labels. */
  lemma EveryLabelSetIsCounted(history: seq<Observation>, labels: Labels, i: nat)
    requires Separable(labels) && forall j :: 0 <= j < |history| ==> Separable(history[j].labels)
    requires i < |DURATION_BUCKETS_MS| && DurationsOf(history, labels) != []
    ensures var key := MetricKey(labels);
            && key in Registry(DURATION_BUCKETS_MS, history)
            && Registry(DURATION_BUCKETS_MS, history)[key].labels == labels
            && var r := Render(Registry(DURATION_BUCKETS_MS, history)[key]);
               && |r.buckets| == |DURATION_BUCKETS_MS|
               && r.buckets[i] == AtMost(DurationsOf(history, labels),
                    [5.0, 10.0, 25.0, 50.0, 100.0, 250.0, 500.0, 1000.0, 2500.0, 5000.0, 10000.0][i])
               && r.inf == |DurationsOf(history, labels)|
  {
    BucketsAscend();
    KeysSeparateLabels(history, labels);
    RegistryIsFaithful(DURATION_BUCKETS_MS, history, MetricKey(labels));
    RenderingCountsObservations(DURATION_BUCKETS_MS, history, MetricKey(labels));
    LabelsAreObserved(DURATION_BUCKETS_MS, history, MetricKey(labels));
    SeparableKeysAreInjective(Registry(DURATION_BUCKETS_MS, history)[MetricKey(labels)].labels, labels);
  }

  /** A histogram is rendered under labels that were observed. */
  lemma {:induction false} LabelsAreObserved(bounds: seq<real>, history: seq<Observation>, key: string)
    requires key in Registry(bounds, history)
    ensures exists i :: 0 <= i < |history| && history[i].labels == Registry(bounds, history)[key].labels
  {
    var front, o := history[..|history| - 1], history[|history| - 1];
    if key in Registry(bounds, front) {
      LabelsAreObserved(bounds, front, key);
      var i :| 0 <= i < |front| && front[i].labels == Registry(bounds, front)[key].labels;
      assert history[i].labels == Registry(bounds, front)[key].labels;
    } else {
      assert history[|history| - 1].labels == o.labels;
    }
  }
}
