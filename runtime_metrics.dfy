/** The host-runtime sampling of the pipeline: the `metricsList` name map, the
    median-bucket reduction of a histogram (`medianBucket`) and the conversion of a
    set of runtime samples into gauge values (`getRuntimeMetrics`). */
module RuntimeMetrics {
  import opened Wrappers

  /** Runtime metric names to the gauge names they are exported under. */
  const MetricsList: map<string, string> := map[
    "/gc/heap/allocs:bytes" := "go_memstats_alloc_bytes_total",
    "/gc/heap/frees:bytes" := "go_memstats_free_bytes_total",
    "/memory/classes/heap/free:bytes" := "go_memstats_heap_bytes_free",
    "/memory/classes/heap/released:bytes" := "go_memstats_heap_bytes_released",
    "/memory/classes/heap/stacks:bytes" := "go_memstats_stack_bytes_reserved",
    "/memory/classes/total:bytes" := "go_memstats_sys_bytes",
    "/memory/classes/heap/unused:bytes" := "go_memstats_heap_bytes_unused",
    "/sched/goroutines:goroutines" := "go_goroutines"]

  /** The runtime metric names, in the order of the map display above. */
  const RuntimeNames: seq<string> := [
    "/gc/heap/allocs:bytes", "/gc/heap/frees:bytes", "/memory/classes/heap/free:bytes",
    "/memory/classes/heap/released:bytes", "/memory/classes/heap/stacks:bytes",
    "/memory/classes/total:bytes", "/memory/classes/heap/unused:bytes",
    "/sched/goroutines:goroutines"]

  /** The gauge names, in the order of the map display above. */
  const GaugeNames: seq<string> := [
    "go_memstats_alloc_bytes_total", "go_memstats_free_bytes_total",
    "go_memstats_heap_bytes_free", "go_memstats_heap_bytes_released",
    "go_memstats_stack_bytes_reserved", "go_memstats_sys_bytes",
    "go_memstats_heap_bytes_unused", "go_goroutines"]

  lemma GaugeNamesDistinct()
    ensures forall i, j :: 0 <= i < j < |GaugeNames| ==> GaugeNames[i] != GaugeNames[j]
  {
    forall i, j | 0 <= i < j < |GaugeNames| ensures GaugeNames[i] != GaugeNames[j] {
      var a, b := GaugeNames[i], GaugeNames[j];
      if |a| == |b| {
        assert a[11] != b[11] || a[16] != b[16] || a[18] != b[18];
      }
    }
  }

  /** `MetricsList` pairs `RuntimeNames[k]` with `GaugeNames[k]` and holds nothing else. */
  lemma MetricsListEntries()
    ensures forall k :: 0 <= k < |RuntimeNames| ==> RuntimeNames[k] in MetricsList && MetricsList[RuntimeNames[k]] == GaugeNames[k]
    ensures forall x :: x in MetricsList ==> exists k :: 0 <= k < |RuntimeNames| && RuntimeNames[k] == x
  {
    forall x | x in MetricsList ensures exists k :: 0 <= k < |RuntimeNames| && RuntimeNames[k] == x {
      if x == RuntimeNames[0] {} else if x == RuntimeNames[1] {} else if x == RuntimeNames[2] {}
      else if x == RuntimeNames[3] {} else if x == RuntimeNames[4] {} else if x == RuntimeNames[5] {}
      else if x == RuntimeNames[6] {} else { assert x == RuntimeNames[7]; }
    }
  }

  /** Every gauge name is the image of exactly one runtime metric. */
  lemma MetricsListInjective()
    ensures forall a, b :: a in MetricsList && b in MetricsList && MetricsList[a] == MetricsList[b] ==> a == b
  {
    MetricsListEntries();
    GaugeNamesDistinct();
    forall a, b | a in MetricsList && b in MetricsList && MetricsList[a] == MetricsList[b] ensures a == b {
      var i :| 0 <= i < 8 && RuntimeNames[i] == a;
      var j :| 0 <= j < 8 && RuntimeNames[j] == b;
    }
  }

  /** The gauges are exactly the eight names of `GaugeNames`. */
  lemma MetricsListNames()
    ensures MetricsList.Values == set k | 0 <= k < |GaugeNames| :: GaugeNames[k]
  {
    var names := set k | 0 <= k < |GaugeNames| :: GaugeNames[k];
    MetricsListEntries();
    forall v | v in MetricsList.Values ensures v in names {
      var a :| a in MetricsList && MetricsList[a] == v;
      var k :| 0 <= k < 8 && RuntimeNames[k] == a;
      assert v == GaugeNames[k];
    }
    forall v | v in names ensures v in MetricsList.Values {
      var k :| 0 <= k < |GaugeNames| && v == GaugeNames[k];
      assert MetricsList[RuntimeNames[k]] == v;
    }
  }

  /** Every gauge name starts with "go_". */
  lemma GaugePrefix()
    ensures forall v :: v in MetricsList.Values ==> |v| >= 3 && v[..3] == "go_"
  {
    MetricsListNames();
    forall v | v in MetricsList.Values ensures |v| >= 3 && v[..3] == "go_" {
      var k :| 0 <= k < |GaugeNames| && v == GaugeNames[k];
      if k == 0 {} else if k == 1 {} else if k == 2 {} else if k == 3 {}
      else if k == 4 {} else if k == 5 {} else if k == 6 {} else {}
    }
  }

  // ---------------------------------------------------------------------------------
  // medianBucket

  /** The sum of a run of histogram counts. */
  function Sum(s: seq<nat>): nat
  {
    if s == [] then 0 else Sum(s[..|s| - 1]) + s[|s| - 1]
  }

  /** `counts[0] + ... + counts[i]`, the running total after bucket `i`. */
  function RunningSum(counts: seq<nat>, i: nat): nat
    requires i < |counts|
  {
    Sum(counts[..i + 1])
  }

  lemma SumStep(s: seq<nat>, i: nat)
    requires i < |s|
    ensures RunningSum(s, i) == Sum(s[..i]) + s[i]
  {
    assert s[..i + 1][..i] == s[..i];
  }

  lemma {:induction false} SumZero(s: seq<nat>)
    requires forall k :: 0 <= k < |s| ==> s[k] == 0
    ensures Sum(s) == 0
  {
    if s != [] {
      SumZero(s[..|s| - 1]);
    }
  }

  /** The first index at or after `from` whose running sum reaches `thresh`, or `|counts|`
      when there is none. */
  function FirstReaching(counts: seq<nat>, thresh: nat, from: nat): (i: nat)
    requires from <= |counts|
    ensures from <= i <= |counts|
    ensures i < |counts| ==> RunningSum(counts, i) >= thresh
    ensures forall j :: from <= j < i ==> RunningSum(counts, j) < thresh
    decreases |counts| - from
  {
    if from == |counts| then from
    else if RunningSum(counts, from) >= thresh then from
    else FirstReaching(counts, thresh, from + 1)
  }

  /** The index `medianBucket` stops at: the least `i` whose running sum
      `counts[0] + ... + counts[i]` reaches half the total, by integer division. */
  function MedianIndex(counts: seq<nat>): (i: nat)
    requires counts != []
    ensures i < |counts|
    ensures RunningSum(counts, i) >= Sum(counts) / 2
    ensures forall j :: 0 <= j < i ==> RunningSum(counts, j) < Sum(counts) / 2
  {
    assert counts[..|counts| - 1 + 1] == counts;
    assert RunningSum(counts, |counts| - 1) == Sum(counts);
    FirstReaching(counts, Sum(counts) / 2, 0)
  }

  /** What `medianBucket` returns: the boundary `Buckets[i]` at the median index, or the
      panic "should not happen" when there are no counts. */
  function MedianOf(buckets: seq<real>, counts: seq<nat>): Outcome<real>
    requires |counts| <= |buckets|
  {
    if counts == [] then Panic("should not happen") else Ok(buckets[MedianIndex(counts)])
  }

  /** `medianBucket(h)`: one pass to total the counts, a second to find where the running
      sum reaches half of that total. `Buckets` has at least as many entries as `Counts`
      (the runtime gives it one more). */
  method MedianBucket(buckets: seq<real>, counts: seq<nat>) returns (r: Outcome<real>)
    requires |counts| <= |buckets|
    ensures r == MedianOf(buckets, counts)
    ensures r.Panic? <==> counts == []
  {
    var total := 0;
    for i := 0 to |counts|
      invariant total == Sum(counts[..i])
    {
      SumStep(counts, i);
      total := total + counts[i];
    }
    assert counts[..|counts|] == counts;
    assert counts != [] ==> RunningSum(counts, |counts| - 1) == Sum(counts);
    var thresh := total / 2;
    total := 0;
    for i := 0 to |counts|
      invariant total == Sum(counts[..i])
      invariant forall j :: 0 <= j < i ==> RunningSum(counts, j) < thresh
    {
      SumStep(counts, i);
      total := total + counts[i];
      if total >= thresh {
        return Ok(buckets[i]);
      }
    }
    if counts != [] {
      assert false;
    }
    return Panic("should not happen");
  }

  lemma {:induction false} PrefixSumMonotone(counts: seq<nat>, a: nat, b: nat)
    requires a <= b <= |counts|
    ensures Sum(counts[..a]) <= Sum(counts[..b])
    decreases b - a
  {
    if a < b {
      SumStep(counts, b - 1);
      PrefixSumMonotone(counts, a, b - 1);
    }
  }

  /** The buckets up to the median one hold at least half of all observations, and every
      bucket from the median on has a running sum at least that large; those before it
      hold less. */
  lemma MedianSplitsMass(counts: seq<nat>)
    requires counts != []
    ensures var i := MedianIndex(counts);
      (forall j :: i <= j < |counts| ==> RunningSum(counts, j) >= Sum(counts) / 2) &&
      (forall j :: 0 <= j < i ==> RunningSum(counts, j) < Sum(counts) / 2)
  {
    var i := MedianIndex(counts);
    forall j | i <= j < |counts| ensures RunningSum(counts, j) >= Sum(counts) / 2 {
      PrefixSumMonotone(counts, i + 1, j + 1);
    }
  }

  /** With every count zero the threshold is zero, so the first boundary is returned. */
  lemma MedianAllZero(buckets: seq<real>, counts: seq<nat>)
    requires 0 < |counts| <= |buckets|
    requires forall k :: 0 <= k < |counts| ==> counts[k] == 0
    ensures MedianOf(buckets, counts) == Ok(buckets[0])
  {
    SumZero(counts);
    assert RunningSum(counts, 0) == 0 by { SumStep(counts, 0); }
  }

  /** Four buckets holding one observation each: the total is 4, the threshold 2, and the
      running sum reaches 2 in the second bucket. */
  lemma MedianExample()
    ensures MedianOf([0.0, 10.0, 20.0, 30.0, 40.0], [1, 1, 1, 1]) == Ok(10.0)
  {
    var c: seq<nat> := [1, 1, 1, 1];
    assert c[..1] == [1] && c[..2] == [1, 1];
    assert RunningSum(c, 0) == 1 && RunningSum(c, 1) == 2;
    assert c[..3][..2] == c[..2] && c[..4][..3] == c[..3];
    assert Sum(c) == 4;
  }

  // ---------------------------------------------------------------------------------
  // getRuntimeMetrics

  /** A value read from the runtime, tagged with its `metrics.Value.Kind()`: counters and
      gauges, histograms (bucket boundaries and per-bucket counts), the invalid kind, and
      any other kind. */
  datatype SampleValue =
    | Uint64Value(u: nat)
    | Float64Value(f: real)
    | HistogramValue(buckets: seq<real>, counts: seq<nat>)
    | BadValue
    | OtherKind

  datatype Sample = Sample(name: string, value: SampleValue)

  /** What the runtime guarantees of a sample: its name is one that was asked for, and a
      histogram has a boundary for every count. */
  predicate WellFormed(s: Sample)
  {
    s.name in MetricsList &&
    (s.value.HistogramValue? ==> |s.value.counts| <= |s.value.buckets|)
  }

  /** One iteration of the second loop: store the sample's value under its gauge name, or
      panic, or skip an unexpected kind (which is only printed). */
  function Step(m: map<string, real>, s: Sample): (r: Outcome<map<string, real>>)
    requires WellFormed(s)
  {
    var name := MetricsList[s.name];
    match s.value
    case Uint64Value(u) => Ok(m[name := u as real])
    case Float64Value(f) => Ok(m[name := f])
    case HistogramValue(b, c) =>
      (match MedianOf(b, c)
       case Ok(x) => Ok(m[name := x])
       case Panic(p) => Panic(p))
    case BadValue => Panic("bug in runtime/metrics package!")
    case OtherKind => Ok(m)
  }

  /** The map `getRuntimeMetrics` builds from the samples, taken in order. Only gauge
      names, the values of `MetricsList`, ever become keys. */
  function Convert(samples: seq<Sample>): (r: Outcome<map<string, real>>)
    requires forall k :: 0 <= k < |samples| ==> WellFormed(samples[k])
    ensures r.Ok? ==> r.value.Keys <= MetricsList.Values
  {
    if samples == [] then Ok(map[])
    else
      match Convert(samples[..|samples| - 1])
      case Panic(p) => Panic(p)
      case Ok(m) => Step(m, samples[|samples| - 1])
  }

  /** Once a prefix of the samples panics, the whole conversion ends in that panic. */
  lemma {:induction false} ConvertPanicPrefix(samples: seq<Sample>, i: nat)
    requires i <= |samples|
    requires forall k :: 0 <= k < |samples| ==> WellFormed(samples[k])
    requires Convert(samples[..i]).Panic?
    ensures Convert(samples) == Convert(samples[..i])
    decreases |samples| - i
  {
    if i < |samples| {
      var init := samples[..|samples| - 1];
      assert init[..i] == samples[..i];
      ConvertPanicPrefix(init, i);
    } else {
      assert samples[..i] == samples;
    }
  }

  /** A result with no error in it: neither the invalid kind nor an empty histogram. */
  predicate Sound(v: SampleValue)
  {
    !v.BadValue? && !(v.HistogramValue? && v.counts == [])
  }

  /** The conversion panics exactly when some sample is of the invalid kind or is a
      histogram without counts. */
  lemma {:induction false} ConvertPanics(samples: seq<Sample>)
    requires forall k :: 0 <= k < |samples| ==> WellFormed(samples[k])
    ensures Convert(samples).Panic? <==> exists k :: 0 <= k < |samples| && !Sound(samples[k].value)
  {
    if samples != [] {
      var init := samples[..|samples| - 1];
      ConvertPanics(init);
      assert forall k :: 0 <= k < |init| ==> init[k] == samples[k];
    }
  }

  /** `order` is an order in which a range over `metricsList` can visit its keys. */
  predicate EnumeratesKeys(order: seq<string>)
  {
    |order| == |MetricsList| && forall key :: key in MetricsList ==> key in order
  }

  /** The samples `metrics.Read` returns for the names `order`, in that order. */
  function ReadSamples(order: seq<string>, read: map<string, SampleValue>): seq<Sample>
    requires forall k :: 0 <= k < |order| ==> order[k] in read
  {
    seq(|order|, k requires 0 <= k < |order| => Sample(order[k], read[order[k]]))
  }

  /** The first loop of `getRuntimeMetrics`, which names one sample per key in `order`,
      and the `metrics.Read` call, whose answer for each name is `read`. */
  method ReadRuntimeSamples(order: seq<string>, read: map<string, SampleValue>) returns (all: seq<Sample>)
    requires forall k :: 0 <= k < |order| ==> order[k] in read
    ensures |all| == |order|
    ensures forall k :: 0 <= k < |order| ==> all[k].name == order[k] && all[k].value == read[order[k]]
  {
    var samples := new Sample[|order|](k => Sample("", OtherKind));
    for i := 0 to |order|
      invariant forall k :: 0 <= k < i ==> samples[k].name == order[k]
    {
      samples[i] := Sample(order[i], OtherKind);
    }
    // metrics.Read fills in every sample's value.
    for i := 0 to |order|
      invariant forall k :: 0 <= k < i ==> samples[k] == Sample(order[k], read[order[k]])
      invariant forall k :: i <= k < |order| ==> samples[k].name == order[k]
    {
      samples[i] := Sample(samples[i].name, read[samples[i].name]);
    }
    all := samples[..];
  }

  /** The second loop of `getRuntimeMetrics`: the samples converted in order. */
  method ConvertSamples(all: seq<Sample>) returns (r: Outcome<map<string, real>>)
    requires forall k :: 0 <= k < |all| ==> WellFormed(all[k])
    ensures r == Convert(all)
  {
    var runtimeMetrics: map<string, real> := map[];
    for i := 0 to |all|
      invariant Convert(all[..i]) == Ok(runtimeMetrics)
    {
      assert all[..i + 1][..i] == all[..i];
      var sample := all[i];
      var name := MetricsList[sample.name];
      match sample.value {
        case Uint64Value(u) =>
          runtimeMetrics := runtimeMetrics[name := u as real];
        case Float64Value(f) =>
          runtimeMetrics := runtimeMetrics[name := f];
        case HistogramValue(b, c) =>
          var median := MedianBucket(b, c);
          if median.Panic? {
            ConvertPanicPrefix(all, i + 1);
            return Panic(median.reason);
          }
          runtimeMetrics := runtimeMetrics[name := median.value];
        case BadValue =>
          ConvertPanicPrefix(all, i + 1);
          return Panic("bug in runtime/metrics package!");
        case OtherKind =>
      }
    }
    assert all[..|all|] == all;
    return Ok(runtimeMetrics);
  }

  /** `getRuntimeMetrics()`: one sample per runtime metric, named in `order`, the order in
      which the map `metricsList` is iterated, then converted into gauge values. */
  method GetRuntimeMetrics(order: seq<string>, read: map<string, SampleValue>)
    returns (r: Outcome<map<string, real>>)
    requires EnumeratesKeys(order)
    requires forall k :: 0 <= k < |order| ==> order[k] in read
    requires forall k :: 0 <= k < |order| ==> WellFormed(Sample(order[k], read[order[k]]))
    ensures r == Convert(ReadSamples(order, read))
    ensures r.Ok? ==> r.value.Keys <= MetricsList.Values
  {
    var samples := ReadRuntimeSamples(order, read);
    assert samples == ReadSamples(order, read);
    r := ConvertSamples(samples);
  }
}
