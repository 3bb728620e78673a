/** Time bins: aligning a date to its bin and filling a sparse list of measurements. */
module Timeseries {
  import opened Basics

  /** The interval lengths; times are whole units of which a day has `DAY`, counted from any epoch. */
  const DAY := 86_400_000_000

  datatype Interval = OneDay | SevenDay | ThirtyDay

  function Delta(interval: Interval): (delta: int)
    ensures delta > 0
  {
    match interval
    case OneDay => DAY
    case SevenDay => 7 * DAY
    case ThirtyDay => 30 * DAY
  }

  /** Start of the bin that contains `date`; `origin` is the date on which the bins are aligned. */
  function AlignedStartDate(interval: Interval, origin: int, date: int): (start: int)
    ensures start <= date < start + (match interval case OneDay => 1 case SevenDay => 7 case ThirtyDay => 30) * 86_400_000_000
    ensures start <= date < start + Delta(interval)
    ensures IsBinStart(interval, origin, start)
  {
    var delta := Delta(interval);
    // negative before the origin
    var intervalsBefore := (date - origin) / delta;
    origin + intervalsBefore * delta
  }

  predicate IsBinStart(interval: Interval, origin: int, t: int) {
    (t - origin) % Delta(interval) == 0
  }

  lemma Distributes(q: int, r: int, d: int)
    ensures (r - q) * d == r * d - q * d
  {
  }

  lemma Product(n: int, d: int)
    requires d > 0
    ensures n >= 0 ==> n * d >= 0
    ensures n > 0 ==> n * d >= d
  {
    if n > 0 {
      Distributes(1, n, d);
    }
  }

  lemma Multiples(q: int, r: int, d: int)
    requires d > 0
    ensures q < r ==> q * d + d <= r * d
    ensures q * d < r * d ==> q < r
    ensures r * d - q * d == (r - q) * d
  {
    Distributes(q, r, d);
    Product(r - q, d);
    Distributes(r, q, d);
    Product(q - r, d);
  }

  lemma Quotient(n: int, d: int) returns (q: int)
    requires d > 0
    ensures q == n / d && q * d <= n < q * d + d && (n % d == 0 ==> n == q * d)
  {
    q := n / d;
  }

  lemma DivisionIsUnique(n: int, m: int, d: int)
    requires d > 0 && m % d == 0 && m <= n < m + d
    ensures m == n / d * d
  {
    var q := Quotient(m, d);
    var r := Quotient(n, d);
    Multiples(q, r, d);
    Multiples(r, q, d);
  }

  /** The aligned date is the only bin start at most an interval before the date. */
  lemma AlignmentIsUnique(interval: Interval, origin: int, date: int, start: int)
    requires var delta := (match interval case OneDay => 1 case SevenDay => 7 case ThirtyDay => 30) * 86_400_000_000;
             (start - origin) % delta == 0 && start <= date < start + delta
    ensures AlignedStartDate(interval, origin, date) == start
  {
    DivisionIsUnique(date - origin, start - origin, Delta(interval));
  }

  /** Aligning is idempotent and keeps the order, before the aligning date as after it. */
  lemma AlignmentIsMonotone(interval: Interval, origin: int, x: int, y: int)
    ensures var a := AlignedStartDate(interval, origin, x);
            AlignedStartDate(interval, origin, a) == a
    ensures x <= y ==> AlignedStartDate(interval, origin, x) <= AlignedStartDate(interval, origin, y)
  {
    var a, b, d := AlignedStartDate(interval, origin, x), AlignedStartDate(interval, origin, y), Delta(interval);
    AlignmentIsUnique(interval, origin, a, a);
    if x <= y && b < a {
      BinStartsApart(interval, origin, b, a);
    }
  }

  lemma BinStartsApart(interval: Interval, origin: int, s: int, t: int)
    requires IsBinStart(interval, origin, s) && IsBinStart(interval, origin, t) && s < t
    ensures s + Delta(interval) <= t
  {
    var d := Delta(interval);
    var q := Quotient(s - origin, d);
    var r := Quotient(t - origin, d);
    Multiples(q, r, d);
  }

  // ---------------------------------------------------------------------------------------------
  // Filling

  datatype Values = Values(avg: Option<real>, min: Option<real>, max: Option<real>)

  datatype Measurement = Measurement(timestamp: int, values: Values)

  const MISSING := Values(None, None, None)

  /** The values given last for a time, as in a dictionary built from the list. */
  function LastAt(ms: seq<Measurement>, t: int): Option<Values> {
    if ms == [] then None
    else
      var m := ms[|ms| - 1];
      if m.timestamp == t then Some(m.values) else LastAt(ms[..|ms| - 1], t)
  }

  lemma {:induction false} LastAtExists(ms: seq<Measurement>, t: int)
    ensures LastAt(ms, t).Some? <==> exists i :: 0 <= i < |ms| && ms[i].timestamp == t
  {
    if ms != [] {
      LastAtExists(ms[..|ms| - 1], t);
    }
  }

  /** The values are those of the last measurement for the time. */
  lemma {:induction false} LastAtIsLast(ms: seq<Measurement>, t: int, i: nat)
    requires i < |ms| && ms[i].timestamp == t && forall j :: i < j < |ms| ==> ms[j].timestamp != t
    ensures LastAt(ms, t) == Some(ms[i].values)
  {
    if i < |ms| - 1 {
      LastAtIsLast(ms[..|ms| - 1], t, i);
    }
  }

  predicate IsOldest(ms: seq<Measurement>, t: int) {
    && (exists i :: 0 <= i < |ms| && ms[i].timestamp == t)
    && forall i :: 0 <= i < |ms| ==> t <= ms[i].timestamp
  }

  method ByTimestamp(ms: seq<Measurement>) returns (byTimestamp: map<int, Values>)
    ensures forall t :: t in byTimestamp <==> LastAt(ms, t).Some?
    ensures forall t :: t in byTimestamp ==> LastAt(ms, t) == Some(byTimestamp[t])
  {
    byTimestamp := map[];
    for i := 0 to |ms|
      invariant forall t :: t in byTimestamp <==> LastAt(ms[..i], t).Some?
      invariant forall t :: t in byTimestamp ==> LastAt(ms[..i], t) == Some(byTimestamp[t])
    {
      assert ms[..i + 1][..i] == ms[..i] && ms[..i + 1][i] == ms[i];
      byTimestamp := byTimestamp[ms[i].timestamp := ms[i].values];
    }
    assert ms[..|ms|] == ms;
  }

  method OldestOf(ms: seq<Measurement>) returns (oldest: int)
    requires ms != []
    ensures IsOldest(ms, oldest)
  {
    oldest := ms[0].timestamp;
    for i := 1 to |ms|
      invariant exists j :: 0 <= j < i && ms[j].timestamp == oldest
      invariant forall j :: 0 <= j < i ==> oldest <= ms[j].timestamp
    {
      if ms[i].timestamp < oldest {
        oldest := ms[i].timestamp;
      }
    }
  }

  function OrMissing(v: Option<Values>): Values {
    if v.Some? then v.value else MISSING
  }

  /** The start of bin `k`. */
  function BinStart(start: int, k: int, delta: int): int {
    start + k * delta
  }

  /** The number of bins from `start` to `end`, both included. */
  function Bins(start: int, end: int, delta: int): (n: nat)
    requires delta > 0
    ensures n > 0 ==> BinStart(start, n - 1, delta) <= end
    ensures end < BinStart(start, n, delta)
  {
    if end < start then 0 else (end - start) / delta + 1
  }

  /**
   One entry for every interval of the requested range. Bin 0 may carry the oldest measurement;
   every other bin has what was last given for it, or nothing.
   */
  method FillSparseMeasurements(measurements: seq<Measurement>, interval: Interval, origin: int,
                                startDate: Option<int>, endDate: Option<int>, now: int)
    returns (intervals: seq<Measurement>)
    ensures measurements == [] ==> intervals == []
    ensures measurements != [] ==>
              exists oldest :: IsOldest(measurements, oldest) && Filled(measurements, interval, origin, startDate, endDate, now, oldest, intervals)
  {
    if measurements == [] {
      return [];
    }
    var byTimestamp := ByTimestamp(measurements);
    var oldest := OldestOf(measurements);
    var delta := Delta(interval);
    var start := AlignedStartDate(interval, origin, if startDate.Some? then startDate.value else oldest);
    var end := if endDate.Some? then endDate.value else now;
    intervals := IntervalsFrom(measurements, byTimestamp, start, end, delta);
    LastAtExists(measurements, oldest);
    hide LastAt, AlignedStartDate;
    BinStartStep(start, 0, delta);
    if oldest <= start && |intervals| > 0 && intervals[0].values.avg.None? {
      // bin 0 stands for everything up to its start
      intervals := intervals[0 := Measurement(start, byTimestamp[oldest])];
    }
    assert Filled(measurements, interval, origin, startDate, endDate, now, oldest, intervals);
  }

  method IntervalsFrom(ghost ms: seq<Measurement>, byTimestamp: map<int, Values>, start: int, end: int, delta: int)
    returns (intervals: seq<Measurement>)
    requires delta > 0
    requires forall t :: t in byTimestamp <==> LastAt(ms, t).Some?
    requires forall t :: t in byTimestamp ==> LastAt(ms, t) == Some(byTimestamp[t])
    ensures |intervals| == Bins(start, end, delta)
    ensures forall k :: 0 <= k < |intervals| ==>
              intervals[k] == Measurement(BinStart(start, k, delta), OrMissing(LastAt(ms, BinStart(start, k, delta))))
  {
    hide LastAt, BinStart;
    BinStartStep(start, 0, delta);
    intervals := [];
    var current := start;
    while current <= end
      invariant current == BinStart(start, |intervals|, delta)
      invariant intervals == [] || BinStart(start, |intervals| - 1, delta) <= end
      invariant forall k :: 0 <= k < |intervals| ==>
          intervals[k] == Measurement(BinStart(start, k, delta), OrMissing(LastAt(ms, BinStart(start, k, delta))))
      decreases end - current
    {
      BinStartStep(start, |intervals|, delta);
      if current in byTimestamp {
        intervals := intervals + [Measurement(current, byTimestamp[current])];
      } else {
        intervals := intervals + [Measurement(current, MISSING)];
      }
      current := current + delta;
    }
    BinsAreUnique(start, end, delta, |intervals|);
  }

  lemma BinStartStep(start: int, k: int, delta: int)
    ensures BinStart(start, k + 1, delta) == BinStart(start, k, delta) + delta && BinStart(start, 0, delta) == start
  {
    Distributes(k, k + 1, delta);
  }

  lemma BinsAreUnique(start: int, end: int, delta: int, n: nat)
    requires delta > 0 && (n == 0 || BinStart(start, n - 1, delta) <= end) && end < BinStart(start, n, delta)
    ensures n == Bins(start, end, delta)
  {
    var m: int := Bins(start, end, delta);
    hide Bins;
    Multiples(n, m - 1, delta);
    Multiples(m, n - 1, delta);
    Multiples(m - 1, m, delta);
    Multiples(n - 1, n, delta);
  }

  /** What the filled list looks like. */
  ghost predicate Filled(ms: seq<Measurement>, interval: Interval, origin: int,
                         startDate: Option<int>, endDate: Option<int>, now: int, oldest: int, intervals: seq<Measurement>)
  {
    var delta := Delta(interval);
    var start := AlignedStartDate(interval, origin, if startDate.Some? then startDate.value else oldest);
    var end := if endDate.Some? then endDate.value else now;
    && |intervals| == Bins(start, end, delta)
    && forall k :: 0 <= k < |intervals| ==>
         var t := BinStart(start, k, delta);
         var given := OrMissing(LastAt(ms, t));
         intervals[k] == Measurement(t, if k == 0 && given.avg.None? && oldest <= start then OrMissing(LastAt(ms, oldest)) else given)
  }

  /**
   The filled list has one entry for each bin start from the aligned start on to the end, in order, and
   no other. An entry for which nothing was given is empty; only the first one carries the values last
   given for the oldest time, when that is not later and the bin has no average of its own.
   */
  lemma FilledExactly(ms: seq<Measurement>, interval: Interval, origin: int, startDate: Option<int>, endDate: Option<int>,
                      now: int, oldest: int, intervals: seq<Measurement>, t: int)
    requires Filled(ms, interval, origin, startDate, endDate, now, oldest, intervals) && IsOldest(ms, oldest)
    ensures var start := AlignedStartDate(interval, origin, if startDate.Some? then startDate.value else oldest);
            var end := if endDate.Some? then endDate.value else now;
            && ((exists k :: 0 <= k < |intervals| && intervals[k].timestamp == t)
                <==> IsBinStart(interval, origin, t) && start <= t <= end)
            && (forall k :: 0 < k < |intervals| ==> intervals[k - 1].timestamp + Delta(interval) == intervals[k].timestamp)
            && (forall k :: 0 < k < |intervals| && LastAt(ms, intervals[k].timestamp).None? ==>
                  intervals[k].values == Values(None, None, None))
            && LastAt(ms, oldest).Some?
            && (intervals != [] && oldest <= start && (LastAt(ms, start).None? || LastAt(ms, start).value.avg.None?) ==>
                  intervals[0].values == LastAt(ms, oldest).value)
            && (intervals != [] && oldest > start && LastAt(ms, start).None? ==> intervals[0].values == Values(None, None, None))
  {
    var start := AlignedStartDate(interval, origin, if startDate.Some? then startDate.value else oldest);
    var end := if endDate.Some? then endDate.value else now;
    LastAtExists(ms, oldest);
    hide LastAt, AlignedStartDate, Bins, BinStart, IsBinStart, IsOldest, Delta;
    if IsBinStart(interval, origin, t) && start <= t <= end {
      var k := BinHas(interval, origin, start, end, t);
      assert intervals[k].timestamp == t;
    }
    forall k | 0 <= k < |intervals|
      ensures IsBinStart(interval, origin, intervals[k].timestamp) && start <= intervals[k].timestamp <= end
    {
      BinIs(interval, origin, start, end, k);
    }
    forall k | 0 < k < |intervals| ensures intervals[k - 1].timestamp + Delta(interval) == intervals[k].timestamp {
      BinStartStep(start, k - 1, Delta(interval));
    }
    BinStartStep(start, 0, Delta(interval));
  }

  lemma BinHas(interval: Interval, origin: int, start: int, end: int, t: int) returns (k: nat)
    requires IsBinStart(interval, origin, start) && IsBinStart(interval, origin, t) && start <= t <= end
    ensures k < Bins(start, end, Delta(interval)) && BinStart(start, k, Delta(interval)) == t
  {
    var d := Delta(interval);
    var q := Quotient(start - origin, d);
    var r := Quotient(t - origin, d);
    hide Bins;
    Multiples(r, q, d);
    Multiples(q, r, d);
    k := r - q;
    BinIndexInRange(start, end, d, k);
  }

  lemma BinIs(interval: Interval, origin: int, start: int, end: int, k: nat)
    requires IsBinStart(interval, origin, start) && k < Bins(start, end, Delta(interval))
    ensures IsBinStart(interval, origin, BinStart(start, k, Delta(interval))) && start <= BinStart(start, k, Delta(interval)) <= end
  {
    var d, n: int := Delta(interval), Bins(start, end, Delta(interval)) - 1;
    assert BinStart(start, n, d) <= end;
    hide Bins, Delta;
    var q := Quotient(start - origin, d);
    Multiples(0, k, d);
    Multiples(k, n, d);
    Product(k, d);
    Multiples(-q, k, d);
    ExactMultiple(q + k, d);
    assert BinStart(start, k, d) - origin == (q + k) * d;
  }

  lemma ExactMultiple(q: int, d: int)
    requires d > 0
    ensures q * d % d == 0
  {
    var n := q * d;
    var r := n / d;
    Multiples(q, r, d);
    Multiples(r, q, d);
  }

  /**
   Measurements inside the range whose time starts a bin all show, the last one for each time;
   only one without an average may give way in bin 0.
   */
  lemma GivenMeasurementsShow(ms: seq<Measurement>, interval: Interval, origin: int, startDate: Option<int>, endDate: Option<int>,
                              now: int, oldest: int, intervals: seq<Measurement>, i: nat) returns (k: nat)
    requires Filled(ms, interval, origin, startDate, endDate, now, oldest, intervals) && i < |ms|
    requires IsBinStart(interval, origin, ms[i].timestamp)
    requires AlignedStartDate(interval, origin, if startDate.Some? then startDate.value else oldest) <= ms[i].timestamp
    requires ms[i].timestamp <= if endDate.Some? then endDate.value else now
    ensures LastAt(ms, ms[i].timestamp).Some? && k < |intervals| && intervals[k].timestamp == ms[i].timestamp
    ensures k > 0 || LastAt(ms, ms[i].timestamp).value.avg.Some? ==> intervals[k].values == LastAt(ms, ms[i].timestamp).value
    ensures k == 0 <==> ms[i].timestamp == AlignedStartDate(interval, origin, if startDate.Some? then startDate.value else oldest)
  {
    LastAtExists(ms, ms[i].timestamp);
    var start := AlignedStartDate(interval, origin, if startDate.Some? then startDate.value else oldest);
    var end := if endDate.Some? then endDate.value else now;
    var d, t := Delta(interval), ms[i].timestamp;
    hide LastAt, Bins, AlignedStartDate;
    assert IsBinStart(interval, origin, start);
    var q := Quotient(start - origin, d);
    var r := Quotient(t - origin, d);
    Multiples(r, q, d);
    Multiples(q, r, d);
    k := r - q;
    BinIndexInRange(start, end, d, k);
  }

  lemma BinIndexInRange(start: int, end: int, delta: int, k: nat)
    requires delta > 0 && BinStart(start, k, delta) <= end
    ensures k < Bins(start, end, delta)
  {
    Multiples(k, Bins(start, end, delta), delta);
  }
}
