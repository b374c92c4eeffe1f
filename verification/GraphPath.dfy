/**
 The downsampled path of one series. A window's samples are sorted into 384 buckets by time; each
 bucket keeps its extremes and draws them in the order of their times.
 */
module GraphPath {
  import opened Domain

  const BUCKET_LIMIT: nat := 384
  const PATH_COORDINATE_MAX: nat := 1000

  datatype GraphKind = Power | Current | Voltage | Temperature

  /** A temperature that no sensor delivers has no value. */
  datatype GraphSample = GraphSample(observedAt: nat, totalPower: real, currents: seq<real>, voltages: seq<real>,
                                     temperatures: seq<Option<real>>)
  {
    function Value(kind: GraphKind, series: nat): Option<real> {
      match kind
      case Power => if series == 0 then Some(totalPower) else None
      case Current => if series < |currents| then Some(currents[series]) else None
      case Voltage => if series < |voltages| then Some(voltages[series]) else None
      case Temperature => if series < |temperatures| then temperatures[series] else None
    }
  }

  datatype Point = Point(time: nat, value: real)

  datatype PathCommand = MoveTo(x: nat, y: nat) | LineTo(x: nat, y: nat)

  /** A path from left to right, its points' times strictly increasing. */
  predicate Ascending(points: seq<Point>) {
    forall i, j :: 0 <= i < j < |points| ==> points[i].time < points[j].time
  }

  /** The points that a series has in a window that starts at `start`. */
  function Windowed(samples: seq<GraphSample>, kind: GraphKind, series: nat, start: nat): seq<Point> {
    if samples == [] then []
    else
      var last := samples[|samples| - 1];
      Windowed(samples[..|samples| - 1], kind, series, start)
      + if last.observedAt >= start && last.Value(kind, series).Some?
        then [Point(last.observedAt, last.Value(kind, series).value)]
        else []
  }

  predicate InOrder(samples: seq<GraphSample>) {
    forall i, j :: 0 <= i < j < |samples| ==> samples[i].observedAt < samples[j].observedAt
  }

  lemma {:induction false} WindowedAreSamples(samples: seq<GraphSample>, kind: GraphKind, series: nat, start: nat,
                                              p: Point)
    ensures p in Windowed(samples, kind, series, start) <==>
      p.time >= start && exists s :: s in samples && s.observedAt == p.time && s.Value(kind, series) == Some(p.value)
  {
    if samples != [] {
      var shorter, last := samples[..|samples| - 1], samples[|samples| - 1];
      assert samples == shorter + [last];
      WindowedAreSamples(shorter, kind, series, start, p);
    }
  }

  lemma {:induction false} WindowedAscends(samples: seq<GraphSample>, kind: GraphKind, series: nat, start: nat)
    requires InOrder(samples)
    ensures Ascending(Windowed(samples, kind, series, start))
  {
    if samples != [] {
      var shorter := samples[..|samples| - 1];
      WindowedAscends(shorter, kind, series, start);
      forall p | p in Windowed(shorter, kind, series, start)
        ensures p.time < samples[|samples| - 1].observedAt
      {
        WindowedAreSamples(shorter, kind, series, start, p);
      }
    }
  }

  // ---- Buckets --------------------------------------------------------------------------------------

  datatype Bucket = Bucket(populated: bool, minimum: Point, maximum: Point)
  {
    /** Keeps the first of the smallest and the first of the largest values. */
    function Add(p: Point): Bucket {
      if !populated then Bucket(true, p, p)
      else Bucket(true, if p.value < minimum.value then p else minimum, if p.value > maximum.value then p else maximum)
    }

    /** One or two points, in the order of their times. */
    function Drawn(): seq<Point> {
      if !populated then []
      else if minimum.time <= maximum.time then [minimum] + if maximum.time != minimum.time then [maximum] else []
      else [maximum, minimum]
    }

    /** The smallest and the largest value are both drawn: unless they differ at one and the same time. */
    predicate DrawsExtremes() {
      populated ==> minimum.time != maximum.time || minimum.value == maximum.value
    }

    /** What the bucket adds to the precomputed number of points. */
    function PointCount(): nat {
      if !populated then 0 else if minimum.time != maximum.time then 2 else 1
    }
  }

  const EMPTY := Bucket(false, Point(0, 0.0), Point(0, 0.0))

  function BucketIndex(elapsed: nat, duration: nat): nat {
    elapsed * BUCKET_LIMIT / (duration + 1)
  }

  /** The clamp to the last bucket fires exactly for times beyond the window. */
  lemma ClampFiresIff(elapsed: nat, duration: nat)
    ensures BucketIndex(elapsed, duration) >= BUCKET_LIMIT <==> elapsed > duration
  {
    var n := duration + 1;
    if elapsed >= n {
      assert elapsed * BUCKET_LIMIT == n * BUCKET_LIMIT + (elapsed - n) * BUCKET_LIMIT;
      QuotientAtLeast(elapsed * BUCKET_LIMIT, n, BUCKET_LIMIT);
    } else {
      QuotientBelow(elapsed * BUCKET_LIMIT, n, BUCKET_LIMIT);
    }
  }

  lemma ProductGrows(n: nat, a: nat, b: nat)
    requires a <= b
    ensures n * a <= n * b
  {
  }

  lemma QuotientAtLeast(a: nat, n: nat, q: nat)
    requires n > 0 && a >= n * q
    ensures a / n >= q
  {
    var d := a / n;
    assert a == n * d + a % n;
    if d < q {
      ProductGrows(n, d + 1, q);
      assert false;
    }
  }

  lemma QuotientBelow(a: nat, n: nat, q: nat)
    requires n > 0 && a < n * q
    ensures a / n < q
  {
    var d := a / n;
    assert a == n * d + a % n;
    if d >= q {
      ProductGrows(n, q, d);
      assert false;
    }
  }

  /** Later times fall in no earlier bucket. */
  lemma IndexGrows(earlier: nat, later: nat, duration: nat)
    requires earlier <= later
    ensures BucketIndex(earlier, duration) <= BucketIndex(later, duration)
  {
    var a, n := earlier * BUCKET_LIMIT, duration + 1;
    assert n * (a / n) <= a <= later * BUCKET_LIMIT;
    QuotientAtLeast(later * BUCKET_LIMIT, n, a / n);
  }

  function IndexOf(p: Point, start: nat, duration: nat): nat {
    Min(BucketIndex(Max(p.time - start, 0), duration), BUCKET_LIMIT - 1)
  }

  /** The 384 buckets divide the window's moments evenly. */
  lemma BucketSpans(p: Point, start: nat, duration: nat, b: nat)
    requires start <= p.time <= start + duration
    ensures IndexOf(p, start, duration) == b
       <==> b * (duration + 1) <= 384 * (p.time - start) < (b + 1) * (duration + 1)
  {
    var elapsed, n := p.time - start, duration + 1;
    ClampFiresIff(elapsed, duration);
    var q := elapsed * BUCKET_LIMIT / n;
    assert n * q <= elapsed * BUCKET_LIMIT < n * (q + 1);
    if b < q {
      ProductGrows(n, b + 1, q);
    } else if q < b {
      ProductGrows(n, q + 1, b);
    }
  }

  /** A bucket's contents, one point after the other. */
  function Filled(points: seq<Point>, start: nat, duration: nat, b: nat): Bucket {
    if points == [] then EMPTY
    else
      var before := Filled(points[..|points| - 1], start, duration, b);
      var last := points[|points| - 1];
      if IndexOf(last, start, duration) == b then before.Add(last) else before
  }

  predicate InBucket(p: Point, points: seq<Point>, start: nat, duration: nat, b: nat) {
    p in points && IndexOf(p, start, duration) == b
  }

  /** A bucket is populated iff a point falls into it; its extremes are such points, and no point lies beyond them. */
  ghost predicate KeepsExtremes(bucket: Bucket, points: seq<Point>, start: nat, duration: nat, b: nat) {
    && (bucket.populated ==>
      InBucket(bucket.minimum, points, start, duration, b) && InBucket(bucket.maximum, points, start, duration, b))
    && forall p :: InBucket(p, points, start, duration, b) ==>
         bucket.populated && bucket.minimum.value <= p.value <= bucket.maximum.value
  }

  lemma InLongerBucket(points: seq<Point>, start: nat, duration: nat, b: nat, p: Point)
    requires points != []
    ensures
      var shorter, last := points[..|points| - 1], points[|points| - 1];
      InBucket(p, points, start, duration, b) <==>
        InBucket(p, shorter, start, duration, b) || (p == last && IndexOf(last, start, duration) == b)
  {
    hide IndexOf;
    assert points == points[..|points| - 1] + [points[|points| - 1]];
  }

  lemma {:induction false} FilledKeepsExtremes(points: seq<Point>, start: nat, duration: nat, b: nat)
    ensures KeepsExtremes(Filled(points, start, duration, b), points, start, duration, b)
  {
    if points != [] {
      hide InBucket, IndexOf;
      FilledKeepsExtremes(points[..|points| - 1], start, duration, b);
      forall p {
        InLongerBucket(points, start, duration, b, p);
      }
    }
  }

  /** No other point of the bucket has the value of an extreme at an earlier time. */
  ghost predicate KeepsEarliest(bucket: Bucket, points: seq<Point>, start: nat, duration: nat, b: nat) {
    forall p :: InBucket(p, points, start, duration, b) ==>
      && (p.value == bucket.minimum.value ==> bucket.minimum.time <= p.time)
      && (p.value == bucket.maximum.value ==> bucket.maximum.time <= p.time)
  }

  lemma {:induction false} FilledKeepsEarliest(points: seq<Point>, start: nat, duration: nat, b: nat)
    requires Ascending(points)
    ensures KeepsEarliest(Filled(points, start, duration, b), points, start, duration, b)
  {
    if points != [] {
      var shorter, last := points[..|points| - 1], points[|points| - 1];
      FilledKeepsEarliest(shorter, start, duration, b);
      FilledKeepsExtremes(shorter, start, duration, b);
      assert forall p :: InBucket(p, shorter, start, duration, b) ==> p.time < last.time;
      hide InBucket, IndexOf, Ascending;
      forall p {
        InLongerBucket(points, start, duration, b, p);
      }
    }
  }

  // ---- What is drawn --------------------------------------------------------------------------------

  /** The points of the first `n` buckets. */
  function DrawnBy(points: seq<Point>, start: nat, duration: nat, n: nat): seq<Point> {
    if n == 0 then [] else DrawnBy(points, start, duration, n - 1) + Filled(points, start, duration, n - 1).Drawn()
  }

  lemma {:induction false} DrawnArePoints(points: seq<Point>, start: nat, duration: nat, n: nat, p: Point)
    requires p in DrawnBy(points, start, duration, n)
    ensures p in points && IndexOf(p, start, duration) < n
    ensures p in Filled(points, start, duration, IndexOf(p, start, duration)).Drawn()
  {
    FilledKeepsExtremes(points, start, duration, n - 1);
    if p !in Filled(points, start, duration, n - 1).Drawn() {
      DrawnArePoints(points, start, duration, n - 1, p);
    }
  }

  lemma {:induction false} AtMostTwoEach(points: seq<Point>, start: nat, duration: nat, n: nat)
    ensures |DrawnBy(points, start, duration, n)| <= 2 * n
  {
    if n > 0 {
      AtMostTwoEach(points, start, duration, n - 1);
    }
  }

  /** A point of an earlier bucket has the earlier time. */
  lemma EarlierBucket(p: Point, q: Point, start: nat, duration: nat)
    requires IndexOf(p, start, duration) < IndexOf(q, start, duration)
    ensures p.time < q.time
  {
    if q.time <= p.time {
      IndexGrows(Max(q.time - start, 0), Max(p.time - start, 0), duration);
    }
  }

  /** A bucket draws points of its own, in the order of their times. */
  lemma BucketDraws(points: seq<Point>, start: nat, duration: nat, b: nat)
    ensures Ascending(Filled(points, start, duration, b).Drawn())
    ensures forall p :: p in Filled(points, start, duration, b).Drawn() ==> InBucket(p, points, start, duration, b)
  {
    FilledKeepsExtremes(points, start, duration, b);
  }

  /** Points of earlier buckets come before points of later ones. */
  lemma {:induction false} DrawnAscends(points: seq<Point>, start: nat, duration: nat, n: nat)
    ensures Ascending(DrawnBy(points, start, duration, n))
  {
    hide IndexOf, Filled, Bucket.Drawn;
    if n > 0 {
      DrawnAscends(points, start, duration, n - 1);
      BucketDraws(points, start, duration, n - 1);
      var left, right := DrawnBy(points, start, duration, n - 1), Filled(points, start, duration, n - 1).Drawn();
      forall p, q | p in left && q in right ensures p.time < q.time {
        DrawnArePoints(points, start, duration, n - 1, p);
        EarlierBucket(p, q, start, duration);
      }
      JoinedAscends(left, right);
    }
  }

  lemma JoinedAscends(left: seq<Point>, right: seq<Point>)
    requires Ascending(left) && Ascending(right)
    requires forall p, q :: p in left && q in right ==> p.time < q.time
    ensures Ascending(left + right)
  {
  }

  lemma {:induction false} BucketIsDrawn(points: seq<Point>, start: nat, duration: nat, n: nat, b: nat, p: Point)
    requires b < n && p in Filled(points, start, duration, b).Drawn()
    ensures p in DrawnBy(points, start, duration, n)
  {
    if b < n - 1 {
      BucketIsDrawn(points, start, duration, n - 1, b, p);
    }
  }

  lemma SameTimeSamePoint(points: seq<Point>, p: Point, q: Point)
    requires Ascending(points) && p in points && q in points && p.time == q.time
    ensures p == q
  {
  }

  /** Every point lies between two drawn ones, so the smallest and the largest value are drawn. */
  ghost predicate Encloses(drawn: seq<Point>, points: seq<Point>) {
    forall p :: p in points ==> exists a, b :: a in drawn && b in drawn && a.value <= p.value <= b.value
  }

  /** Every point lies between two drawn ones of its own bucket. */
  ghost predicate EnclosesInBuckets(drawn: seq<Point>, points: seq<Point>, start: nat, duration: nat) {
    forall p :: p in points ==> exists a, b ::
      && a in drawn && b in drawn && a.value <= p.value <= b.value
      && IndexOf(a, start, duration) == IndexOf(p, start, duration) == IndexOf(b, start, duration)
  }

  /** Points in strictly increasing time leave no bucket with two values at one time. */
  lemma AscendingDrawsExtremes(points: seq<Point>, start: nat, duration: nat, b: nat)
    requires Ascending(points)
    ensures Filled(points, start, duration, b).DrawsExtremes()
  {
    var bucket := Filled(points, start, duration, b);
    FilledKeepsExtremes(points, start, duration, b);
    if bucket.populated && bucket.minimum.time == bucket.maximum.time {
      SameTimeSamePoint(points, bucket.minimum, bucket.maximum);
    }
  }

  /** A point lies between two drawn points of its own bucket, if that bucket draws its extremes. */
  lemma DrawnEncloses(points: seq<Point>, start: nat, duration: nat, p: Point) returns (low: Point, high: Point)
    requires p in points && Filled(points, start, duration, IndexOf(p, start, duration)).DrawsExtremes()
    ensures low in DrawnBy(points, start, duration, BUCKET_LIMIT)
    ensures high in DrawnBy(points, start, duration, BUCKET_LIMIT)
    ensures low.value <= p.value <= high.value
    ensures IndexOf(low, start, duration) == IndexOf(p, start, duration) == IndexOf(high, start, duration)
  {
    var b := IndexOf(p, start, duration);
    var bucket := Filled(points, start, duration, b);
    FilledKeepsExtremes(points, start, duration, b);
    assert InBucket(p, points, start, duration, b);
    low, high := bucket.minimum, bucket.maximum;
    assert low in bucket.Drawn() && high in bucket.Drawn();
    BucketIsDrawn(points, start, duration, BUCKET_LIMIT, b, low);
    BucketIsDrawn(points, start, duration, BUCKET_LIMIT, b, high);
  }

  /** A bucket that leaves its largest value out lets a point stand out. */
  lemma EnclosingDrawsExtremes(points: seq<Point>, start: nat, duration: nat, b: nat)
    requires EnclosesInBuckets(DrawnBy(points, start, duration, BUCKET_LIMIT), points, start, duration)
    ensures Filled(points, start, duration, b).DrawsExtremes()
  {
    hide IndexOf, Filled, DrawnBy;
    var bucket := Filled(points, start, duration, b);
    FilledKeepsExtremes(points, start, duration, b);
    if bucket.populated {
      var top := bucket.maximum;
      var low, high :| low in DrawnBy(points, start, duration, BUCKET_LIMIT)
        && high in DrawnBy(points, start, duration, BUCKET_LIMIT) && low.value <= top.value <= high.value
        && IndexOf(low, start, duration) == IndexOf(top, start, duration) == IndexOf(high, start, duration);
      DrawnArePoints(points, start, duration, BUCKET_LIMIT, high);
    }
  }

  /** No bucket's extremes are two values at one time. */
  ghost predicate ExtremesAreDrawn(points: seq<Point>, start: nat, duration: nat) {
    forall b :: 0 <= b < BUCKET_LIMIT ==> Filled(points, start, duration, b).DrawsExtremes()
  }

  lemma DrawnExtremesEnclose(points: seq<Point>, start: nat, duration: nat)
    requires ExtremesAreDrawn(points, start, duration)
    ensures EnclosesInBuckets(DrawnBy(points, start, duration, BUCKET_LIMIT), points, start, duration)
  {
    hide IndexOf, DrawnBy;
    forall p | p in points
      ensures EnclosesInBuckets(DrawnBy(points, start, duration, BUCKET_LIMIT), [p], start, duration)
    {
      IndexInRange(p, start, duration);
      var low, high := DrawnEncloses(points, start, duration, p);
    }
    assert forall p :: p in points ==> p in [p];
  }

  /** The drawn points enclose every point within its bucket exactly when every bucket draws its extremes. */
  lemma EnclosesIff(points: seq<Point>, start: nat, duration: nat)
    ensures EnclosesInBuckets(DrawnBy(points, start, duration, BUCKET_LIMIT), points, start, duration)
       <==> ExtremesAreDrawn(points, start, duration)
  {
    hide IndexOf, DrawnBy, EnclosesInBuckets;
    if EnclosesInBuckets(DrawnBy(points, start, duration, BUCKET_LIMIT), points, start, duration) {
      forall b | 0 <= b < BUCKET_LIMIT ensures Filled(points, start, duration, b).DrawsExtremes() {
        EnclosingDrawsExtremes(points, start, duration, b);
      }
    }
    if ExtremesAreDrawn(points, start, duration) {
      DrawnExtremesEnclose(points, start, duration);
    }
  }

  lemma IndexInRange(p: Point, start: nat, duration: nat)
    ensures IndexOf(p, start, duration) < BUCKET_LIMIT
  {
  }

  function Larger(a: real, b: real): real {
    if a < b then b else a
  }

  /** Two values at one time lose the larger one, in whichever order they came. */
  lemma {:induction false} EqualTimesLoseTheMaximum(t: nat, a: real, b: real, start: nat, duration: nat, n: nat)
    requires a != b
    ensures Point(t, Larger(a, b)) !in DrawnBy([Point(t, a), Point(t, b)], start, duration, n)
  {
    hide IndexOf;
    if n > 0 {
      EqualTimesLoseTheMaximum(t, a, b, start, duration, n - 1);
      var points := [Point(t, a), Point(t, b)];
      assert points[..1] == [Point(t, a)];
      var inside := IndexOf(points[0], start, duration) == n - 1;
      assert IndexOf(points[1], start, duration) == IndexOf(points[0], start, duration) by {
        SameTimeSameBucket(points[0], points[1], start, duration);
      }
      assert Filled([], start, duration, n - 1) == EMPTY;
      assert Filled(points[..1], start, duration, n - 1) == if inside then EMPTY.Add(points[0]) else EMPTY;
      assert Filled(points, start, duration, n - 1) == if inside then EMPTY.Add(points[0]).Add(points[1]) else EMPTY;
    }
  }

  lemma SameTimeSameBucket(p: Point, q: Point, start: nat, duration: nat)
    requires p.time == q.time
    ensures IndexOf(p, start, duration) == IndexOf(q, start, duration)
  {
  }

  // ---- Coordinates ----------------------------------------------------------------------------------

  /** The coordinate is the ratio on the 0..1000 scale, rounded half up; beyond the scale it is its end. */
  predicate Near(c: nat, ratio: real) {
    if ratio <= 0.0 then c == 0
    else if ratio >= 1.0 then c == 1000
    else c as real - 0.5 <= ratio * 1000.0 < c as real + 0.5
  }

  /** A ratio on the 0..1000 scale: scaled, rounded and clamped. */
  function Coordinate(ratio: real): (c: nat)
    ensures c <= PATH_COORDINATE_MAX && Near(c, ratio)
  {
    Max(0, Min((ratio * 1000.0 + 0.5).Floor, PATH_COORDINATE_MAX))
  }

  function X(time: nat, start: nat, duration: nat): nat
    requires duration > 0
  {
    Coordinate(Max(time - start, 0) as real / duration as real)
  }

  function Y(value: real, low: real, high: real): nat
    requires low < high
  {
    Coordinate((high - value) / (high - low))
  }

  /** The window fills the width, and the axis the height. */
  lemma CornersAreReached(start: nat, duration: nat, low: real, high: real)
    requires duration > 0 && low < high
    ensures X(start, start, duration) == 0 && X(start + duration, start, duration) == 1000
    ensures Y(high, low, high) == 0 && Y(low, low, high) == 1000
  {
    assert duration as real / duration as real == 1.0 && (high - low) / (high - low) == 1.0;
    assert 0.0 / duration as real == 0.0 && 0.0 / (high - low) == 0.0;
  }

  lemma RatiosGrow(a: real, b: real, d: real)
    requires a <= b && d > 0.0
    ensures a / d <= b / d
  {
    assert b / d - a / d == (b - a) / d;
  }

  lemma LaterIsFurtherRight(earlier: nat, later: nat, start: nat, duration: nat)
    requires duration > 0 && earlier <= later
    ensures X(earlier, start, duration) <= X(later, start, duration) <= PATH_COORDINATE_MAX
  {
    RatiosGrow(Max(earlier - start, 0) as real, Max(later - start, 0) as real, duration as real);
  }

  lemma LargerIsHigher(small: real, large: real, low: real, high: real)
    requires low < high && small <= large
    ensures Y(large, low, high) <= Y(small, low, high)
  {
    RatiosGrow(high - large, high - small, high - low);
  }

  // ---- The path -------------------------------------------------------------------------------------

  /** The path that draws `points`: one move, then lines. */
  function PathOf(points: seq<Point>, start: nat, duration: nat, low: real, high: real): seq<PathCommand>
    requires duration > 0 && low < high
  {
    if points == [] then []
    else
      var last := points[|points| - 1];
      var x, y := X(last.time, start, duration), Y(last.value, low, high);
      PathOf(points[..|points| - 1], start, duration, low, high)
      + [if |points| == 1 then MoveTo(x, y) else LineTo(x, y)]
  }

  lemma {:induction false} PathOfEach(points: seq<Point>, start: nat, duration: nat, low: real, high: real)
    requires duration > 0 && low < high
    ensures var path := PathOf(points, start, duration, low, high);
      && |path| == |points|
      && forall i :: 0 <= i < |points| ==>
           && (path[i].MoveTo? <==> i == 0)
           && path[i].x == X(points[i].time, start, duration) && path[i].y == Y(points[i].value, low, high)
  {
    if points != [] {
      PathOfEach(points[..|points| - 1], start, duration, low, high);
    }
  }

  /**
   The path depicts the points: each is placed, to the nearest of 1000 steps, by its time in the window
   from left to right and by its value in the axis from top to bottom.
   */
  ghost predicate Depicts(path: seq<PathCommand>, points: seq<Point>, start: nat, end: nat, low: real, high: real)
    requires low < high
  {
    var duration := if end > start then end - start else 1;
    && |path| == |points|
    && forall i :: 0 <= i < |path| ==>
         && (path[i].MoveTo? <==> i == 0)
         && Near(path[i].x, (points[i].time - start) as real / duration as real)
         && Near(path[i].y, (high - points[i].value) / (high - low))
  }

  lemma PathDepicts(points: seq<Point>, start: nat, end: nat, low: real, high: real)
    requires low < high
    requires forall p :: p in points ==> p.time >= start
    ensures Depicts(PathOf(points, start, Duration(start, end), low, high), points, start, end, low, high)
  {
    hide Near, Coordinate, PathOf;
    PathOfEach(points, start, Duration(start, end), low, high);
    forall i | 0 <= i < |points| ensures points[i].time >= start {
      assert points[i] in points;
    }
  }

  predicate LeftToRight(path: seq<PathCommand>) {
    && (forall i :: 0 <= i < |path| ==> path[i].x <= PATH_COORDINATE_MAX && path[i].y <= PATH_COORDINATE_MAX)
    && (forall i, j :: 0 <= i < j < |path| ==> path[i].x <= path[j].x)
  }

  lemma PathRunsLeftToRight(points: seq<Point>, start: nat, duration: nat, low: real, high: real)
    requires duration > 0 && low < high && Ascending(points)
    ensures LeftToRight(PathOf(points, start, duration, low, high))
  {
    var path := PathOf(points, start, duration, low, high);
    PathOfEach(points, start, duration, low, high);
    forall i, j | 0 <= i < j < |path| ensures path[i].x <= path[j].x {
      LaterIsFurtherRight(points[i].time, points[j].time, start, duration);
    }
  }

  /** The duration that a window's times are scaled by. */
  function Duration(start: nat, end: nat): nat {
    Max(Max(end - start, 0), 1)
  }

  function AppendPathPoint(path: seq<PathCommand>, p: Point, start: nat, duration: nat, low: real, high: real)
    : seq<PathCommand>
    requires duration > 0 && low < high
  {
    var x, y := X(p.time, start, duration), Y(p.value, low, high);
    path + [if path == [] then MoveTo(x, y) else LineTo(x, y)]
  }

  method CountPoints(buckets: array<Bucket>, ghost points: seq<Point>, ghost start: nat, ghost duration: nat)
    returns (pointCount: nat)
    requires buckets.Length == BUCKET_LIMIT
    requires forall b :: 0 <= b < BUCKET_LIMIT ==> buckets[b] == Filled(points, start, duration, b)
    ensures pointCount == |DrawnBy(points, start, duration, BUCKET_LIMIT)|
  {
    pointCount := 0;
    for b := 0 to BUCKET_LIMIT
      invariant pointCount == |DrawnBy(points, start, duration, b)|
    {
      pointCount := pointCount + buckets[b].PointCount();
    }
  }

  lemma DrawnSummary(points: seq<Point>, start: nat, duration: nat)
    ensures var drawn := DrawnBy(points, start, duration, BUCKET_LIMIT);
      |drawn| <= 2 * BUCKET_LIMIT && Ascending(drawn) && forall p :: p in drawn ==> p in points
  {
    AtMostTwoEach(points, start, duration, BUCKET_LIMIT);
    DrawnAscends(points, start, duration, BUCKET_LIMIT);
    forall p | p in DrawnBy(points, start, duration, BUCKET_LIMIT) ensures p in points {
      DrawnArePoints(points, start, duration, BUCKET_LIMIT, p);
    }
  }

  lemma NoPath(start: nat, duration: nat, low: real, high: real)
    requires duration > 0 && low < high
    ensures PathOf([], start, duration, low, high) == []
  {
  }

  lemma PathGrows(points: seq<Point>, p: Point, start: nat, duration: nat, low: real, high: real)
    requires duration > 0 && low < high
    ensures PathOf(points + [p], start, duration, low, high)
         == AppendPathPoint(PathOf(points, start, duration, low, high), p, start, duration, low, high)
  {
    PathOfEach(points, start, duration, low, high);
    assert (points + [p])[..|points|] == points;
  }

  method FillBuckets(samples: seq<GraphSample>, kind: GraphKind, series: nat, start: nat, duration: nat)
    returns (buckets: array<Bucket>)
    ensures fresh(buckets) && buckets.Length == BUCKET_LIMIT
    ensures forall b :: 0 <= b < BUCKET_LIMIT ==>
      buckets[b] == Filled(Windowed(samples, kind, series, start), start, duration, b)
  {
    buckets := new Bucket[BUCKET_LIMIT](_ => EMPTY);
    for i := 0 to |samples|
      invariant forall b :: 0 <= b < BUCKET_LIMIT ==>
        buckets[b] == Filled(Windowed(samples[..i], kind, series, start), start, duration, b)
    {
      var sample := samples[i];
      ghost var before := Windowed(samples[..i], kind, series, start);
      assert samples[..i + 1][..i] == samples[..i];
      if sample.observedAt >= start && sample.Value(kind, series).Some? {
        var point := Point(sample.observedAt, sample.Value(kind, series).value);
        assert (before + [point])[..|before|] == before;
        var index := IndexOf(point, start, duration);
        buckets[index] := buckets[index].Add(point);
      } else {
        assert before + [] == before;
      }
    }
    assert samples[..|samples|] == samples;
  }

  method DrawBuckets(buckets: array<Bucket>, ghost points: seq<Point>, start: nat, duration: nat, low: real, high: real)
    returns (path: seq<PathCommand>, ghost drawn: seq<Point>)
    requires duration > 0 && low < high && buckets.Length == BUCKET_LIMIT
    requires forall b :: 0 <= b < BUCKET_LIMIT ==> buckets[b] == Filled(points, start, duration, b)
    ensures drawn == DrawnBy(points, start, duration, BUCKET_LIMIT)
    ensures path == PathOf(DrawnBy(points, start, duration, BUCKET_LIMIT), start, duration, low, high)
  {
    hide PathOf, AppendPathPoint, Filled, X, Y;
    path, drawn := [], [];
    NoPath(start, duration, low, high);
    for b := 0 to BUCKET_LIMIT
      invariant drawn == DrawnBy(points, start, duration, b)
      invariant path == PathOf(drawn, start, duration, low, high)
    {
      var part := buckets[b].Drawn();
      for k := 0 to |part|
        invariant drawn == DrawnBy(points, start, duration, b) + part[..k]
        invariant path == PathOf(drawn, start, duration, low, high)
      {
        PathGrows(drawn, part[k], start, duration, low, high);
        path := AppendPathPoint(path, part[k], start, duration, low, high);
        drawn := drawn + [part[k]];
      }
      assert part[..|part|] == part;
    }
  }

  /**
   Builds the path of one series in a window. It draws real points of the window, at most 768, in
   strictly increasing time from left to right, as many as were counted in advance. It encloses every
   point of the window within its bucket exactly if no bucket's extremes are two values at one time,
   and always for samples in strictly increasing time.
   */
  method BuildPath(samples: seq<GraphSample>, kind: GraphKind, series: nat, start: nat, end: nat, low: real, high: real)
    returns (path: seq<PathCommand>, pointCount: nat, ghost drawn: seq<Point>)
    requires low < high
    ensures drawn == DrawnBy(Windowed(samples, kind, series, start), start, Duration(start, end), BUCKET_LIMIT)
    ensures path == PathOf(drawn, start, Duration(start, end), low, high)
    ensures Depicts(path, drawn, start, end, low, high)
    ensures |path| == pointCount <= 768 && LeftToRight(path)
    ensures Ascending(drawn) && forall p :: p in drawn ==> p in Windowed(samples, kind, series, start)
    ensures EnclosesInBuckets(drawn, Windowed(samples, kind, series, start), start, Duration(start, end))
       <==> ExtremesAreDrawn(Windowed(samples, kind, series, start), start, Duration(start, end))
    ensures InOrder(samples) ==> ExtremesAreDrawn(Windowed(samples, kind, series, start), start, Duration(start, end))
    ensures InOrder(samples) ==> Encloses(drawn, Windowed(samples, kind, series, start))
  {
    var duration := Duration(start, end);
    ghost var points := Windowed(samples, kind, series, start);
    var buckets := FillBuckets(samples, kind, series, start, duration);
    pointCount := CountPoints(buckets, points, start, duration);
    path, drawn := DrawBuckets(buckets, points, start, duration, low, high);
    DrawnSummary(points, start, duration);
    PathOfEach(drawn, start, duration, low, high);
    forall p | p in drawn ensures p.time >= start {
      WindowedAreSamples(samples, kind, series, start, p);
    }
    PathDepicts(drawn, start, end, low, high);
    PathRunsLeftToRight(drawn, start, duration, low, high);
    EnclosesIff(points, start, duration);
    if InOrder(samples) {
      WindowedAscends(samples, kind, series, start);
      forall b | 0 <= b < BUCKET_LIMIT ensures Filled(points, start, duration, b).DrawsExtremes() {
        AscendingDrawsExtremes(points, start, duration, b);
      }
    }
  }
}
