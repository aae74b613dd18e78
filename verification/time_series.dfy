/**
 The dashboard's time series: logs grouped by the database, incidents grouped by the service, and
 the list of points that joins the two.
 */
module TimeSeries {
  import opened Wrappers

  const MINUTE_MS := 60_000

  /** Minutes from the Unix epoch to 2000-01-01T00:00Z, where `$dateTrunc` starts laying out its bins. */
  const ORIGIN_MINUTES := 15_778_080

  datatype Log = Log(timestamp: int, isError: bool)

  datatype Row = Row(logCount: int, errorCount: int)

  datatype Point = Point(timestamp: int, logCount: int, errorCount: int, incidentCount: int)

  function Width(bucketMinutes: Positive): Positive {
    bucketMinutes * MINUTE_MS
  }

  /** The start of the bin an instant falls in, for bins laid out from `origin`. */
  function BinStart(t: int, origin: int, width: Positive): int {
    origin + (t - origin) / width * width
  }

  /** How the database bins an instant, and how the service does. */
  function DateTrunc(t: int, bucketMinutes: Positive): int {
    BinStart(t, ORIGIN_MINUTES * MINUTE_MS, Width(bucketMinutes))
  }

  function Floor(t: int, bucketMinutes: Positive): int {
    BinStart(t, 0, Width(bucketMinutes))
  }

  // ---------------------------------------------------------------- the two layouts

  lemma ScaledDivides(a: int, b: Positive, c: Positive)
    ensures (a * c) % (b * c) == 0 <==> a % b == 0
  {
    var q, r := a / b, a % b;
    ScaledDivision(a, b, c, q, r);
    UniqueQuotient(a * c, b * c, q, r * c);
    if r > 0 {
      MonotoneProduct(1, r, c);
    }
  }

  lemma ScaledDivision(a: int, b: Positive, c: Positive, q: int, r: int)
    requires a == q * b + r && 0 <= r < b
    ensures a * c == q * (b * c) + r * c && 0 <= r * c < b * c
  {
    calc {
      a * c;
      (q * b + r) * c;
      q * b * c + r * c;
      q * (b * c) + r * c;
    }
    MonotoneProduct(0, r, c);
    MonotoneProduct(r + 1, b, c);
    NextBucket(r, c);
  }

  lemma MonotoneProduct(a: int, b: int, c: Positive)
    requires a <= b
    ensures a * c <= b * c
  {
  }

  lemma UniqueQuotient(x: int, w: Positive, q: int, r: int)
    requires x == q * w + r && 0 <= r < w
    ensures x / w == q && x % w == r
  {
    var d := x / w - q;
    assert r - x % w == d * w;
    if d > 0 {
      MonotoneProduct(1, d, w);
    } else if d < 0 {
      MonotoneProduct(d, -1, w);
    }
  }

  /** The database and the service bin every instant alike exactly when the bucket size divides the origin. */
  lemma LayoutsCoincide(bucketMinutes: Positive)
    ensures (forall t :: DateTrunc(t, bucketMinutes) == Floor(t, bucketMinutes))
        <==> ORIGIN_MINUTES % bucketMinutes == 0
  {
    var w, origin := Width(bucketMinutes), ORIGIN_MINUTES * MINUTE_MS;
    ScaledDivides(ORIGIN_MINUTES, bucketMinutes, MINUTE_MS);
    assert DateTrunc(origin, bucketMinutes) == origin;
    if origin % w == 0 {
      forall t ensures DateTrunc(t, bucketMinutes) == Floor(t, bucketMinutes) {
        ShiftedLayout(t, origin / w, w);
        assert origin == origin / w * w;
      }
    } else {
      assert Floor(origin, bucketMinutes) != origin;
    }
  }

  lemma ShiftedLayout(t: int, k: int, w: Positive)
    ensures BinStart(t, k * w, w) == BinStart(t, 0, w)
  {
    var q, r := t / w, t % w;
    assert t - k * w == (q - k) * w + r by {
      assert (q - k) * w == q * w - k * w;
    }
    UniqueQuotient(t - k * w, w, q - k, r);
  }

  // ---------------------------------------------------------------- counting

  predicate InRange(t: int, from: int, to: int) {
    from <= t < to
  }

  /** How many of the instants in the range fall in the bin that starts at `start`. */
  function CountAt(ts: seq<int>, from: int, to: int, origin: int, width: Positive, start: int): nat {
    if ts == [] then 0
    else
      var t := ts[|ts| - 1];
      CountAt(ts[..|ts| - 1], from, to, origin, width, start)
      + if InRange(t, from, to) && BinStart(t, origin, width) == start then 1 else 0
  }

  /** Definition: how many of the instants are in the range at all. */
  ghost function Total(ts: seq<int>, from: int, to: int): nat {
    if ts == [] then 0
    else Total(ts[..|ts| - 1], from, to) + if InRange(ts[|ts| - 1], from, to) then 1 else 0
  }

  function Times(logs: seq<Log>, errorsOnly: bool): seq<int> {
    if logs == [] then []
    else
      var l := logs[|logs| - 1];
      Times(logs[..|logs| - 1], errorsOnly) + if errorsOnly && !l.isError then [] else [l.timestamp]
  }

  /** What the database answers: one row for each bin that holds a log of the range. */
  function Grouped(logs: seq<Log>, from: int, to: int, bucketMinutes: Positive): map<int, Row> {
    var origin, w := ORIGIN_MINUTES * MINUTE_MS, Width(bucketMinutes);
    var starts := set l | l in logs && InRange(l.timestamp, from, to) :: BinStart(l.timestamp, origin, w);
    map s | s in starts ::
      Row(CountAt(Times(logs, false), from, to, origin, w, s), CountAt(Times(logs, true), from, to, origin, w, s))
  }

  /** The point of bucket number `n`, defined by counting. */
  function PointAt(logs: seq<Log>, incidents: seq<int>, from: int, to: int, bucketMinutes: Positive, n: int): Point {
    var origin, w := ORIGIN_MINUTES * MINUTE_MS, Width(bucketMinutes);
    Point(n * w,
          CountAt(Times(logs, false), from, to, origin, w, n * w),
          CountAt(Times(logs, true), from, to, origin, w, n * w),
          CountAt(incidents, from, to, 0, w, n * w))
  }

  /** The points of the buckets from number `n` up to the end of the range. */
  function Series(logs: seq<Log>, incidents: seq<int>, from: int, to: int, bucketMinutes: Positive, n: int): seq<Point>
    decreases (to - n * Width(bucketMinutes))
  {
    if n * Width(bucketMinutes) >= to then []
    else
      NextBucket(n, Width(bucketMinutes));
      [PointAt(logs, incidents, from, to, bucketMinutes, n)] + Series(logs, incidents, from, to, bucketMinutes, n + 1)
  }

  lemma NextBucket(n: int, w: Positive)
    ensures (n + 1) * w == n * w + w
  {
  }

  lemma {:induction false} NoRowNoLogs(logs: seq<Log>, errorsOnly: bool, from: int, to: int, origin: int, w: Positive,
                                       start: int)
    requires forall l :: l in logs && InRange(l.timestamp, from, to) ==> BinStart(l.timestamp, origin, w) != start
    ensures CountAt(Times(logs, errorsOnly), from, to, origin, w, start) == 0
  {
    if logs != [] {
      var front, l := logs[..|logs| - 1], logs[|logs| - 1];
      assert l in logs && forall x :: x in front ==> x in logs;
      NoRowNoLogs(front, errorsOnly, from, to, origin, w, start);
      assert (Times(front, errorsOnly) + [l.timestamp])[..|Times(front, errorsOnly)|] == Times(front, errorsOnly);
      assert Times(front, errorsOnly) + [] == Times(front, errorsOnly);
    }
  }

  /** Looking a bucket up among the rows, with zero when it is missing, is counting. */
  lemma RowsAreCounts(logs: seq<Log>, from: int, to: int, bucketMinutes: Positive, start: int)
    ensures var rows, origin, w := Grouped(logs, from, to, bucketMinutes), ORIGIN_MINUTES * MINUTE_MS,
        Width(bucketMinutes);
      && (if start in rows then rows[start].logCount else 0) == CountAt(Times(logs, false), from, to, origin, w, start)
      && (if start in rows then rows[start].errorCount else 0) == CountAt(Times(logs, true), from, to, origin, w, start)
  {
    if start !in Grouped(logs, from, to, bucketMinutes) {
      NoRowNoLogs(logs, false, from, to, ORIGIN_MINUTES * MINUTE_MS, Width(bucketMinutes), start);
      NoRowNoLogs(logs, true, from, to, ORIGIN_MINUTES * MINUTE_MS, Width(bucketMinutes), start);
    }
  }

  /** Incidents counted per bucket, as the loop over them leaves the map. */
  ghost predicate Tallied(m: map<int, int>, incidents: seq<int>, from: int, to: int, w: Positive) {
    && (forall b :: b in m ==> m[b] == CountAt(incidents, from, to, 0, w, b))
    && forall b :: b !in m ==> CountAt(incidents, from, to, 0, w, b) == 0
  }

  lemma TallyOne(m: map<int, int>, incidents: seq<int>, t: int, from: int, to: int, w: Positive)
    requires Tallied(m, incidents, from, to, w)
    ensures var b := BinStart(t, 0, w);
      Tallied(if InRange(t, from, to) then m[b := (if b in m then m[b] else 0) + 1] else m,
              incidents + [t], from, to, w)
  {
    assert (incidents + [t])[..|incidents|] == incidents;
  }

  lemma SeriesPeels(done: seq<Point>, logs: seq<Log>, incidents: seq<int>, from: int, to: int,
                    bucketMinutes: Positive, n: int)
    requires n * Width(bucketMinutes) < to
    ensures done + Series(logs, incidents, from, to, bucketMinutes, n)
         == done + [PointAt(logs, incidents, from, to, bucketMinutes, n)]
             + Series(logs, incidents, from, to, bucketMinutes, n + 1)
  {
  }

  method CountIncidents(incidents: seq<int>, from: int, to: int, bucketMs: Positive)
    returns (incidentsByBucket: map<int, int>)
    ensures Tallied(incidentsByBucket, incidents, from, to, bucketMs)
  {
    incidentsByBucket := map[];
    for i := 0 to |incidents|
      invariant Tallied(incidentsByBucket, incidents[..i], from, to, bucketMs)
    {
      TallyOne(incidentsByBucket, incidents[..i], incidents[i], from, to, bucketMs);
      assert incidents[..i + 1] == incidents[..i] + [incidents[i]];
      if InRange(incidents[i], from, to) {
        var bucket := incidents[i] / bucketMs * bucketMs;
        var current := if bucket in incidentsByBucket then incidentsByBucket[bucket] else 0;
        incidentsByBucket := incidentsByBucket[bucket := current + 1];
      }
    }
    assert incidents[..|incidents|] == incidents;
  }

  method Build(logs: seq<Log>, incidents: seq<int>, from: int, to: int, bucketMinutes: Positive)
    returns (result: seq<Point>)
    ensures result == Series(logs, incidents, from, to, bucketMinutes, from / Width(bucketMinutes))
  {
    var byBucket := Grouped(logs, from, to, bucketMinutes);
    var bucketMs := Width(bucketMinutes);
    var incidentsByBucket := CountIncidents(incidents, from, to, bucketMs);
    result := [];
    var timestamp := from / bucketMs * bucketMs;
    ghost var n := from / bucketMs;
    ghost var whole := Series(logs, incidents, from, to, bucketMinutes, n);
    assert [] + whole == whole;
    while timestamp < to
      invariant timestamp == n * bucketMs
      invariant result + Series(logs, incidents, from, to, bucketMinutes, n) == whole
      decreases (to - timestamp)
    {
      var logCount := if timestamp in byBucket then byBucket[timestamp].logCount else 0;
      var errorCount := if timestamp in byBucket then byBucket[timestamp].errorCount else 0;
      var incidentCount := if timestamp in incidentsByBucket then incidentsByBucket[timestamp] else 0;
      RowsAreCounts(logs, from, to, bucketMinutes, timestamp);
      var point := Point(timestamp, logCount, errorCount, incidentCount);
      assert point == PointAt(logs, incidents, from, to, bucketMinutes, n);
      SeriesPeels(result, logs, incidents, from, to, bucketMinutes, n);
      result := result + [point];
      timestamp := timestamp + bucketMs;
      NextBucket(n, bucketMs);
      n := n + 1;
    }
  }

  // ---------------------------------------------------------------- the points cover the range

  /** Points of consecutive buckets from number `n`, the last being the last that starts before the end. */
  ghost predicate Consecutive(ps: seq<Point>, n: int, to: int, w: Positive) {
    && (forall i :: 0 <= i < |ps| ==> ps[i].timestamp == (n + i) * w)
    && to <= (n + |ps|) * w
    && (|ps| > 0 ==> (n + |ps| - 1) * w < to)
  }

  lemma OneMoreConsecutive(p: Point, rest: seq<Point>, n: int, to: int, w: Positive)
    requires p.timestamp == n * w < to && Consecutive(rest, n + 1, to, w)
    ensures Consecutive([p] + rest, n, to, w)
  {
    var ps := [p] + rest;
    assert (n + 1) + |rest| == n + |ps|;
    forall i | 0 <= i < |ps| ensures ps[i].timestamp == (n + i) * w {
      if i > 0 {
        assert ps[i] == rest[i - 1] && (n + 1) + (i - 1) == n + i;
      }
    }
  }

  lemma {:induction false} PointsAreConsecutive(logs: seq<Log>, incidents: seq<int>, from: int, to: int,
                                                bucketMinutes: Positive, n: int)
    ensures Consecutive(Series(logs, incidents, from, to, bucketMinutes, n), n, to, Width(bucketMinutes))
    decreases (to - n * Width(bucketMinutes))
  {
    if n * Width(bucketMinutes) < to {
      NextBucket(n, Width(bucketMinutes));
      PointsAreConsecutive(logs, incidents, from, to, bucketMinutes, n + 1);
      OneMoreConsecutive(PointAt(logs, incidents, from, to, bucketMinutes, n),
                         Series(logs, incidents, from, to, bucketMinutes, n + 1), n, to, Width(bucketMinutes));
    }
  }

  /** Every instant of a range lies in the bucket of exactly one point, number `t / w - from / w`. */
  ghost predicate InOnePoint(ps: seq<Point>, t: int, from: int, w: Positive) {
    && 0 <= t / w - from / w < |ps|
    && forall j :: 0 <= j < |ps| ==> (ps[j].timestamp <= t < ps[j].timestamp + w <==> j == t / w - from / w)
  }

  lemma EachInstantInOnePoint(ps: seq<Point>, from: int, to: int, w: Positive, t: int)
    requires InRange(t, from, to) && Consecutive(ps, from / w, to, w)
    ensures InOnePoint(ps, t, from, w)
  {
    QuotientIsMonotone(from, t, w);
    BeforeTheEnd(t, to, w, from / w + |ps|);
    forall j | 0 <= j < |ps| ensures ps[j].timestamp <= t < ps[j].timestamp + w <==> j == t / w - from / w {
      InBucket(t, from / w + j, w);
    }
  }

  lemma InBucket(t: int, n: int, w: Positive)
    ensures n * w <= t < n * w + w <==> t / w == n
  {
    if n * w <= t < n * w + w {
      UniqueQuotient(t, w, n, t - n * w);
    }
  }

  lemma BeforeTheEnd(t: int, to: int, w: Positive, n: int)
    requires t < to <= n * w
    ensures t / w < n
  {
    if n <= t / w {
      MonotoneProduct(n, t / w, w);
    }
  }

  lemma QuotientIsMonotone(a: int, b: int, w: Positive)
    requires a <= b
    ensures a / w <= b / w
  {
    if b / w < a / w {
      MonotoneProduct(b / w + 1, a / w, w);
    }
  }

  // ---------------------------------------------------------------- the points sum up to the totals

  datatype Measure = Logs | Errors | Incidents

  ghost function Value(p: Point, k: Measure): int {
    match k
    case Logs => p.logCount
    case Errors => p.errorCount
    case Incidents => p.incidentCount
  }

  ghost function Instants(logs: seq<Log>, incidents: seq<int>, k: Measure): seq<int> {
    match k
    case Logs => Times(logs, false)
    case Errors => Times(logs, true)
    case Incidents => incidents
  }

  ghost function Sum(ps: seq<Point>, k: Measure): int {
    if ps == [] then 0 else Value(ps[0], k) + Sum(ps[1..], k)
  }

  ghost function OriginOf(k: Measure): int {
    if k == Incidents then 0 else ORIGIN_MINUTES * MINUTE_MS
  }

  /** How many instants of the range lie in bucket `n` or a later one. */
  ghost function TotalFrom(ts: seq<int>, from: int, to: int, w: Positive, n: int): nat {
    if ts == [] then 0
    else
      var t := ts[|ts| - 1];
      TotalFrom(ts[..|ts| - 1], from, to, w, n) + if InRange(t, from, to) && t / w >= n then 1 else 0
  }

  ghost predicate Aligned(origin: int, w: Positive) {
    forall t :: BinStart(t, origin, w) == BinStart(t, 0, w)
  }

  lemma SameBucket(t: int, n: int, w: Positive)
    ensures BinStart(t, 0, w) == n * w <==> t / w == n
  {
    if BinStart(t, 0, w) == n * w {
      UniqueQuotient(n * w, w, n, 0);
      UniqueQuotient(t / w * w, w, t / w, 0);
    }
  }

  lemma {:induction false} PeelBucket(ts: seq<int>, from: int, to: int, origin: int, w: Positive, n: int)
    requires Aligned(origin, w)
    ensures TotalFrom(ts, from, to, w, n) == CountAt(ts, from, to, origin, w, n * w) + TotalFrom(ts, from, to, w, n + 1)
  {
    if ts != [] {
      var t := ts[|ts| - 1];
      PeelBucket(ts[..|ts| - 1], from, to, origin, w, n);
      SameBucket(t, n, w);
      assert BinStart(t, origin, w) == BinStart(t, 0, w);
    }
  }

  lemma {:induction false} NothingAfterTheEnd(ts: seq<int>, from: int, to: int, w: Positive, n: int)
    requires n * w >= to
    ensures TotalFrom(ts, from, to, w, n) == 0
  {
    if ts != [] {
      NothingAfterTheEnd(ts[..|ts| - 1], from, to, w, n);
      var t := ts[|ts| - 1];
      if t / w >= n {
        MonotoneProduct(n, t / w, w);
      }
    }
  }

  lemma {:induction false} EverythingFromTheFirst(ts: seq<int>, from: int, to: int, w: Positive)
    ensures TotalFrom(ts, from, to, w, from / w) == Total(ts, from, to)
  {
    if ts != [] {
      EverythingFromTheFirst(ts[..|ts| - 1], from, to, w);
      if from <= ts[|ts| - 1] {
        QuotientIsMonotone(from, ts[|ts| - 1], w);
      }
    }
  }

  lemma {:induction false} SumFrom(logs: seq<Log>, incidents: seq<int>, from: int, to: int, bucketMinutes: Positive,
                                   n: int, k: Measure)
    requires Aligned(OriginOf(k), Width(bucketMinutes))
    ensures Sum(Series(logs, incidents, from, to, bucketMinutes, n), k)
         == TotalFrom(Instants(logs, incidents, k), from, to, Width(bucketMinutes), n)
    decreases (to - n * Width(bucketMinutes))
  {
    var w, ts := Width(bucketMinutes), Instants(logs, incidents, k);
    if n * w >= to {
      NothingAfterTheEnd(ts, from, to, w, n);
    } else {
      NextBucket(n, w);
      SumFrom(logs, incidents, from, to, bucketMinutes, n + 1, k);
      PeelBucket(ts, from, to, OriginOf(k), w, n);
      var p, rest := PointAt(logs, incidents, from, to, bucketMinutes, n),
          Series(logs, incidents, from, to, bucketMinutes, n + 1);
      assert ([p] + rest)[1..] == rest;
      assert Value(p, k) == CountAt(ts, from, to, OriginOf(k), w, n * w);
    }
  }

  /** Definition: how many logs, error logs or incidents there are in a range. */
  ghost function CountLogs(logs: seq<Log>, from: int, to: int): nat {
    if logs == [] then 0
    else CountLogs(logs[..|logs| - 1], from, to) + if from <= logs[|logs| - 1].timestamp < to then 1 else 0
  }

  ghost function CountErrors(logs: seq<Log>, from: int, to: int): nat {
    if logs == [] then 0
    else
      var l := logs[|logs| - 1];
      CountErrors(logs[..|logs| - 1], from, to) + if l.isError && from <= l.timestamp < to then 1 else 0
  }

  ghost function Happened(logs: seq<Log>, incidents: seq<int>, from: int, to: int, k: Measure): nat {
    match k
    case Logs => CountLogs(logs, from, to)
    case Errors => CountErrors(logs, from, to)
    case Incidents => Total(incidents, from, to)
  }

  lemma TotalOfOneMore(ts: seq<int>, t: int, from: int, to: int)
    ensures Total(ts + [t], from, to) == Total(ts, from, to) + if from <= t < to then 1 else 0
  {
    assert (ts + [t])[..|ts|] == ts;
  }

  lemma {:induction false} TimesAreLogs(logs: seq<Log>, from: int, to: int)
    ensures Total(Times(logs, false), from, to) == CountLogs(logs, from, to)
  {
    if logs != [] {
      var front := logs[..|logs| - 1];
      TimesAreLogs(front, from, to);
      TotalOfOneMore(Times(front, false), logs[|logs| - 1].timestamp, from, to);
    }
  }

  lemma {:induction false} TimesAreErrors(logs: seq<Log>, from: int, to: int)
    ensures Total(Times(logs, true), from, to) == CountErrors(logs, from, to)
  {
    if logs != [] {
      var front := logs[..|logs| - 1];
      TimesAreErrors(front, from, to);
      TotalOfOneMore(Times(front, true), logs[|logs| - 1].timestamp, from, to);
      assert Times(front, true) + [] == Times(front, true);
    }
  }

  lemma InstantsAreWhatHappened(logs: seq<Log>, incidents: seq<int>, from: int, to: int, k: Measure)
    ensures Total(Instants(logs, incidents, k), from, to) == Happened(logs, incidents, from, to, k)
  {
    TimesAreLogs(logs, from, to);
    TimesAreErrors(logs, from, to);
  }

  ghost predicate SumsToTotal(logs: seq<Log>, incidents: seq<int>, from: int, to: int, bucketMinutes: Positive,
                              k: Measure) {
    Sum(Series(logs, incidents, from, to, bucketMinutes, from / Width(bucketMinutes)), k)
        == Happened(logs, incidents, from, to, k)
  }

  lemma {:induction false} CountIsTotalOfBucket(ts: seq<int>, from: int, to: int, origin: int, w: Positive, n: int)
    requires Aligned(origin, w)
    ensures CountAt(ts, from, to, origin, w, n * w)
         == Total(ts, if from < n * w then n * w else from, if to < n * w + w then to else n * w + w)
  {
    if ts != [] {
      var t := ts[|ts| - 1];
      CountIsTotalOfBucket(ts[..|ts| - 1], from, to, origin, w, n);
      assert BinStart(t, origin, w) == BinStart(t, 0, w);
      SameBucket(t, n, w);
      InBucket(t, n, w);
    }
  }

  lemma AlignedFor(bucketMinutes: Positive, k: Measure)
    requires k == Incidents || ORIGIN_MINUTES % bucketMinutes == 0
    ensures Aligned(OriginOf(k), Width(bucketMinutes))
  {
    if k != Incidents {
      LayoutsCoincide(bucketMinutes);
      forall t ensures BinStart(t, OriginOf(k), Width(bucketMinutes)) == BinStart(t, 0, Width(bucketMinutes)) {
        assert DateTrunc(t, bucketMinutes) == Floor(t, bucketMinutes);
      }
    }
  }

  /** A point counts what lies both in the range and in its own bucket. */
  lemma PointCountsItsBucket(logs: seq<Log>, incidents: seq<int>, from: int, to: int, bucketMinutes: Positive, n: int,
                             k: Measure)
    requires k == Incidents || ORIGIN_MINUTES % bucketMinutes == 0
    ensures var p, w := PointAt(logs, incidents, from, to, bucketMinutes, n), Width(bucketMinutes);
      Value(p, k) == Happened(logs, incidents, if from < p.timestamp then p.timestamp else from,
                              if to < p.timestamp + w then to else p.timestamp + w, k)
  {
    var p, w := PointAt(logs, incidents, from, to, bucketMinutes, n), Width(bucketMinutes);
    AlignedFor(bucketMinutes, k);
    InstantsAreWhatHappened(logs, incidents, if from < p.timestamp then p.timestamp else from,
                            if to < p.timestamp + w then to else p.timestamp + w, k);
    CountIsTotalOfBucket(Instants(logs, incidents, k), from, to, OriginOf(k), Width(bucketMinutes), n);
  }

  /** Every log, error and incident of the range is in the series once, when the bucket size divides the origin. */
  lemma SeriesSumsToTotals(logs: seq<Log>, incidents: seq<int>, from: int, to: int, bucketMinutes: Positive, k: Measure)
    requires k == Incidents || ORIGIN_MINUTES % bucketMinutes == 0
    ensures SumsToTotal(logs, incidents, from, to, bucketMinutes, k)
  {
    AlignedFor(bucketMinutes, k);
    SumFrom(logs, incidents, from, to, bucketMinutes, from / Width(bucketMinutes), k);
    EverythingFromTheFirst(Instants(logs, incidents, k), from, to, Width(bucketMinutes));
    InstantsAreWhatHappened(logs, incidents, from, to, k);
  }

  lemma CountOfOne(t: int, origin: int, w: Positive, start: int)
    requires BinStart(t, origin, w) != start
    ensures CountAt([t], t, t + 1, origin, w, start) == 0
  {
    assert [t][..0] == [];
  }

  lemma SumOfOne(p: Point, k: Measure)
    ensures Sum([p], k) == Value(p, k)
  {
    assert [p][1..] == [];
  }

  lemma OneLog(t: int)
    ensures Times([Log(t, false)], false) == [t] && CountLogs([Log(t, false)], t, t + 1) == 1
  {
    assert [Log(t, false)][..0] == [] && [t][..0] == [];
  }

  lemma OneBucket(logs: seq<Log>, t: int, bucketMinutes: Positive, n: int)
    requires n * Width(bucketMinutes) <= t < (n + 1) * Width(bucketMinutes)
    ensures Series(logs, [], t, t + 1, bucketMinutes, n) == [PointAt(logs, [], t, t + 1, bucketMinutes, n)]
  {
    assert Series(logs, [], t, t + 1, bucketMinutes, n + 1) == [];
  }

  /** With any other bucket size a log is lost: one made at the origin, in a range that starts there. */
  lemma MisalignedBucketsLoseALog(bucketMinutes: Positive)
    requires ORIGIN_MINUTES % bucketMinutes != 0
    ensures var t := ORIGIN_MINUTES * MINUTE_MS; !SumsToTotal([Log(t, false)], [], t, t + 1, bucketMinutes, Logs)
  {
    var t, w := ORIGIN_MINUTES * MINUTE_MS, Width(bucketMinutes);
    ScaledDivides(ORIGIN_MINUTES, bucketMinutes, MINUTE_MS);
    NextBucket(t / w, w);
    OneBucket([Log(t, false)], t, bucketMinutes, t / w);
    SumOfOne(PointAt([Log(t, false)], [], t, t + 1, bucketMinutes, t / w), Logs);
    OneLog(t);
    CountOfOne(t, t, w, t / w * w);
  }

  /** So the series is complete for every input exactly when the bucket size divides the origin. */
  lemma CompleteExactlyWhenAligned(bucketMinutes: Positive)
    ensures (forall logs, incidents, from, to, k :: SumsToTotal(logs, incidents, from, to, bucketMinutes, k))
            <==> ORIGIN_MINUTES % bucketMinutes == 0
  {
    if ORIGIN_MINUTES % bucketMinutes == 0 {
      forall logs, incidents, from, to, k ensures SumsToTotal(logs, incidents, from, to, bucketMinutes, k) {
        SeriesSumsToTotals(logs, incidents, from, to, bucketMinutes, k);
      }
    } else {
      MisalignedBucketsLoseALog(bucketMinutes);
    }
  }

  // ---------------------------------------------------------------- the configured ranges

  datatype Range = Minutes15 | Hour1 | Hours6 | Hours24 | Days7

  datatype Window = Window(from: int, to: int, previousFrom: int, bucketMinutes: Positive)

  function RangeMinutes(r: Range): Positive {
    match r
    case Minutes15 => 15
    case Hour1 => 60
    case Hours6 => 360
    case Hours24 => 1440
    case Days7 => 10080
  }

  function BucketMinutes(r: Range): Positive {
    match r
    case Minutes15 => 1
    case Hour1 => 5
    case Hours6 => 15
    case Hours24 => 60
    case Days7 => 360
  }

  function DashboardWindow(r: Range, now: int): Window {
    var durationMs := RangeMinutes(r) * MINUTE_MS;
    Window(now - durationMs, now, now - 2 * durationMs, BucketMinutes(r))
  }

  /** `length` points from the bucket of `from` on, over a range that ends a whole number of buckets later. */
  ghost predicate Spans(length: int, from: int, to: int, w: Positive) {
    to <= (from / w + length) * w && (length > 0 ==> (from / w + length - 1) * w < to)
  }

  lemma ConfiguredLength(r: Range, now: int, length: nat)
    requires var v := DashboardWindow(r, now); Spans(length, v.from, v.to, Width(v.bucketMinutes))
    ensures var v := DashboardWindow(r, now);
      length == RangeMinutes(r) / BucketMinutes(r) + if v.from % Width(v.bucketMinutes) == 0 then 0 else 1
  {
    match r
    case Minutes15 =>
    case Hour1 =>
    case Hours6 =>
    case Hours24 =>
    case Days7 =>
  }

  /** How many whole buckets each configured range holds, and how many minutes it covers. */
  lemma ConfiguredBuckets(r: Range)
    ensures RangeMinutes(r) / BucketMinutes(r) == match r
                                                  case Minutes15 => 15
                                                  case Hour1 => 12
                                                  case Hours6 => 24
                                                  case Hours24 => 24
                                                  case Days7 => 28
    ensures RangeMinutes(r) == match r
                               case Minutes15 => 15
                               case Hour1 => 60
                               case Hours6 => 6 * 60
                               case Hours24 => 24 * 60
                               case Days7 => 7 * 24 * 60
  {
  }

  /** A range ends now, and the one it is compared with is as long and ends where it begins. */
  lemma ComparedWithTheRangeBefore(r: Range, now: int, t: int)
    ensures var v := DashboardWindow(r, now);
      && InRange(t, v.from, v.to) == (now - 60_000 * RangeMinutes(r) <= t < now)
      && InRange(t, v.previousFrom, v.from) == InRange(t + 60_000 * RangeMinutes(r), v.from, v.to)
  {
  }

  /** Every configured range gets a complete series, of one bucket more than it holds unless it starts on a bucket. */
  lemma ConfiguredSeries(r: Range, now: int, logs: seq<Log>, incidents: seq<int>, k: Measure)
    ensures var v := DashboardWindow(r, now);
      SumsToTotal(logs, incidents, v.from, v.to, v.bucketMinutes, k)
    ensures var v := DashboardWindow(r, now);
      |Series(logs, incidents, v.from, v.to, v.bucketMinutes, v.from / Width(v.bucketMinutes))|
      == RangeMinutes(r) / BucketMinutes(r) + if v.from % Width(v.bucketMinutes) == 0 then 0 else 1
  {
    var v := DashboardWindow(r, now);
    var n := v.from / Width(v.bucketMinutes);
    SeriesSumsToTotals(logs, incidents, v.from, v.to, v.bucketMinutes, k);
    PointsAreConsecutive(logs, incidents, v.from, v.to, v.bucketMinutes, n);
    ConfiguredLength(r, now, |Series(logs, incidents, v.from, v.to, v.bucketMinutes, n)|);
  }
}
