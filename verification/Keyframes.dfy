/** Keyframe decimation of assetpipe/optimize_animation.go, over the reals. */
module Keyframes {

  /** MaxKeyframeLookahead. */
  const LOOKAHEAD: nat := 256

  lemma RowBounds(f: nat, n: nat, components: nat)
    requires f < n
    ensures 0 <= f * components <= (f + 1) * components <= n * components
    ensures (f + 1) * components - f * components == components
  {
  }

  /** The product, named so that proofs can keep it closed. */
  function Mul(x: real, y: real): real {
    x * y
  }

  function Abs(x: real): real {
    if x < 0.0 then -x else x
  }

  function Max(x: real, y: real): real {
    if x < y then y else x
  }

  /** A LINEAR sampler: one row of components per keyframe. */
  datatype Track = Track(times: seq<real>, values: seq<real>, components: nat) {
    predicate Valid() {
      |times| >= 2 && components > 0 && |values| == |times| * components
    }

    /** The components of one keyframe. */
    function Row(f: nat): (row: seq<real>)
      requires Valid() && f < |times|
      ensures |row| == components
    {
      RowBounds(f, |times|, components);
      values[f * components..(f + 1) * components]
    }

    function Value(f: nat, c: nat): (v: real)
      requires Valid() && f < |times| && c < components
      ensures v == Row(f)[c]
    {
      RowBounds(f, |times|, components);
      values[f * components + c]
    }

    /** Linear interpolation between two keyframes, read at a frame. */
    function Interpolated(low: nat, high: nat, f: nat, c: nat): real
      requires Valid() && low < |times| && high < |times| && f < |times| && c < components
    {
      var timeSpan := times[high] - times[low];
      var alpha := if timeSpan > 0.0 then (times[f] - times[low]) / timeSpan else 0.0;
      Value(low, c) + (Value(high, c) - Value(low, c)) * alpha
    }

    function Deviation(low: nat, high: nat, f: nat, c: nat): real
      requires Valid() && low < |times| && high < |times| && f < |times| && c < components
    {
      Abs(Interpolated(low, high, f, c) - Value(f, c))
    }

    /** How far frame f is from the line between two keyframes, times their
        distance in time: the cross product of the two directions. */
    function Offset(low: nat, high: nat, f: nat, c: nat): real
      requires Valid() && low < |times| && high < |times| && f < |times| && c < components
    {
      Abs(Mul(Row(f)[c] - Row(low)[c], times[high] - times[low]) - Mul(Row(high)[c] - Row(low)[c], times[f] - times[low]))
    }

    /** Frame f is at most limit from the line; keyframes that do not rise in time
        have no line, and the value of the first stands for it. */
    predicate Near(low: nat, high: nat, f: nat, c: nat, limit: real)
      requires Valid() && low < |times| && high < |times| && f < |times| && c < components
    {
      if times[low] < times[high] then Offset(low, high, f, c) <= Mul(limit, times[high] - times[low])
      else Abs(Row(f)[c] - Row(low)[c]) <= limit
    }

    /** Frame f is exactly that far from the line. */
    predicate LiesAt(low: nat, high: nat, f: nat, c: nat, distance: real)
      requires Valid() && low < |times| && high < |times| && f < |times| && c < components
    {
      if times[low] < times[high] then Offset(low, high, f, c) == Mul(distance, times[high] - times[low])
      else Abs(Row(f)[c] - Row(low)[c]) == distance
    }

    /** Dropping the frames between low and high stays within the limit. */
    ghost predicate Fits(low: nat, high: nat, limit: real)
      requires Valid() && high < |times|
    {
      forall f, c :: low < f < high && 0 <= c < components ==> Near(low, high, f, c, limit)
    }

    /** worst is the largest deviation between low and high, 0 when there is none. */
    ghost predicate Worst(low: nat, high: nat, worst: real)
      requires Valid()
    {
      && high < |times| && worst >= 0.0 && Fits(low, high, worst)
      && (worst == 0.0 || exists f, c :: low < f < high && 0 <= c < components && LiesAt(low, high, f, c, worst))
    }

    /** The largest range that a single component covers. */
    ghost predicate IsSpan(span: real)
      requires Valid()
    {
      && span >= 0.0
      && (forall f, g, c :: 0 <= f < |times| && 0 <= g < |times| && 0 <= c < components ==> Row(f)[c] - Row(g)[c] <= span)
      && (span == 0.0 || exists f, g, c :: 0 <= f < |times| && 0 <= g < |times| && 0 <= c < components
                                           && Row(f)[c] - Row(g)[c] == span)
    }

    /** Two neighbouring kept frames with little between them. */
    ghost predicate Link(a: nat, b: nat, limit: real)
      requires Valid()
    {
      a < b <= a + 257 && b < |times| && Fits(a, b, limit)
    }

    /** Kept frames rise from the first, and little is dropped between neighbours. */
    ghost predicate Kept(keep: seq<nat>, limit: real)
      requires Valid()
    {
      && keep != [] && keep[0] == 0
      && forall i, j :: 0 <= i < j < |keep| && j == i + 1 ==> Link(keep[i], keep[j], limit)
    }

    /** Every window from a up to b fits. */
    ghost predicate Grown(a: nat, b: nat, limit: real)
      requires Valid()
    {
      b < |times| && forall w :: a < w <= b ==> Fits(a, w, limit)
    }

    /** The window from a cannot grow past b. */
    ghost predicate Blocked(a: nat, b: nat, limit: real)
      requires Valid()
    {
      b >= |times| - 1 || b - a > 256 || !Fits(a, b + 1, limit)
    }

    /** Nothing is kept without need: between neighbours the window grew frame by
        frame until it could not grow further. */
    ghost predicate Greedy(keep: seq<nat>, limit: real)
      requires Valid()
    {
      forall i, j :: 0 <= i < j < |keep| && j == i + 1 ==>
        Grown(keep[i], keep[j], limit) && Blocked(keep[i], keep[j], limit)
    }

    /** worst is reached between two neighbouring kept frames. */
    ghost predicate Reached(keep: seq<nat>, worst: real)
      requires Valid()
    {
      worst == 0.0 || exists i, j :: 0 <= i < j < |keep| && j == i + 1 && Worst(keep[i], keep[j], worst)
    }

    /** worst is the largest deviation of all dropped frames. */
    ghost predicate WorstOver(keep: seq<nat>, worst: real)
      requires Valid()
    {
      worst >= 0.0 && Kept(keep, worst) && Reached(keep, worst)
    }
  }

  // ---- interpolation is the line ----

  /** The interpolated value lies on the line through the two keyframes, which it
      meets at both ends. */
  lemma InterpolatedOnLine(t: Track, low: nat, high: nat, f: nat, c: nat)
    requires t.Valid() && low < |t.times| && high < |t.times| && f < |t.times| && c < t.components
    requires t.times[low] < t.times[high]
    ensures Mul(t.Interpolated(low, high, f, c) - t.Row(low)[c], t.times[high] - t.times[low])
         == Mul(t.Row(high)[c] - t.Row(low)[c], t.times[f] - t.times[low])
    ensures t.Interpolated(low, high, low, c) == t.Row(low)[c]
    ensures t.Interpolated(low, high, high, c) == t.Row(high)[c]
  {
    var rise, time, span := t.Row(high)[c] - t.Row(low)[c], t.times[f] - t.times[low], t.times[high] - t.times[low];
    hide Track.Row;
    assert t.Interpolated(low, high, f, c) - t.Row(low)[c] == rise * (time / span);
    hide *;
    TimesQuotient(rise, time, span);
    TimesQuotient(rise, 0.0, span);
    TimesQuotient(rise, span, span);
  }

  lemma TimesQuotient(x: real, y: real, z: real)
    requires z > 0.0
    ensures Mul(x * (y / z), z) == Mul(x, y)
    ensures 0.0 / z == 0.0 && z / z == 1.0
  {
  }

  lemma AbsTimes(x: real, y: real)
    requires y > 0.0
    ensures Abs(Mul(x, y)) == Mul(Abs(x), y)
  {
  }

  lemma OrderTimes(x: real, y: real, z: real)
    requires z > 0.0
    ensures x <= y <==> Mul(x, z) <= Mul(y, z)
    ensures x == y <==> Mul(x, z) == Mul(y, z)
  {
  }

  lemma DifferenceTimes(x: real, y: real, z: real)
    ensures Mul(x - y, z) == Mul(x, z) - Mul(y, z)
  {
  }

  /** So the deviation is the distance from the line. */
  lemma DeviationIsDistance(t: Track, low: nat, high: nat, f: nat, c: nat, limit: real)
    requires t.Valid() && low < |t.times| && high < |t.times| && f < |t.times| && c < t.components
    ensures t.Deviation(low, high, f, c) <= limit <==> t.Near(low, high, f, c, limit)
    ensures t.Deviation(low, high, f, c) == limit <==> t.LiesAt(low, high, f, c, limit)
  {
    if t.times[low] < t.times[high] {
      InterpolatedOnLine(t, low, high, f, c);
      hide Mul, Track.Row, Track.Interpolated;
      var span := t.times[high] - t.times[low];
      var x, y := t.Interpolated(low, high, f, c) - t.Row(low)[c], t.Row(f)[c] - t.Row(low)[c];
      DifferenceTimes(x, y, span);
      AbsTimes(x - y, span);
      OrderTimes(Abs(x - y), limit, span);
    } else {
      Level(t, low, high, f, c);
      hide Mul, Track.Row, Track.Interpolated;
    }
  }

  /** Keyframes that do not rise in time predict the value of the first. */
  lemma Level(t: Track, low: nat, high: nat, f: nat, c: nat)
    requires t.Valid() && low < |t.times| && high < |t.times| && f < |t.times| && c < t.components
    requires t.times[high] <= t.times[low]
    ensures t.Interpolated(low, high, f, c) == t.Row(low)[c]
  {
    hide Track.Row;
  }

  lemma NearMore(t: Track, low: nat, high: nat, f: nat, c: nat, a: real, b: real)
    requires t.Valid() && low < |t.times| && high < |t.times| && f < |t.times| && c < t.components
    requires t.Near(low, high, f, c, a) && a <= b
    ensures t.Near(low, high, f, c, b)
  {
    if t.times[low] < t.times[high] { OrderTimes(a, b, t.times[high] - t.times[low]); }
    hide Mul, Track.Offset, Track.Row;
  }

  // ---- the loops ----

  /** windowFits. */
  method WindowFits(t: Track, low: nat, high: nat, limit: real) returns (worst: real, ok: bool)
    requires t.Valid() && low < high < |t.times|
    ensures ok <==> t.Fits(low, high, limit)
    ensures ok ==> t.Worst(low, high, worst)
  {
    hide Track.Deviation, Track.Near, Track.LiesAt;
    worst := 0.0;
    for frame := low + 1 to high
      invariant worst >= 0.0
      invariant forall f, c :: low < f < frame && 0 <= c < t.components ==>
                  t.Deviation(low, high, f, c) <= limit && t.Deviation(low, high, f, c) <= worst
      invariant worst == 0.0 || exists f, c :: low < f < frame && 0 <= c < t.components && t.Deviation(low, high, f, c) == worst
    {
      for component := 0 to t.components
        invariant worst >= 0.0
        invariant forall f, c :: (low < f < frame && 0 <= c < t.components) || (f == frame && 0 <= c < component) ==>
                    t.Deviation(low, high, f, c) <= limit && t.Deviation(low, high, f, c) <= worst
        invariant worst == 0.0 || exists f, c :: low < f <= frame && 0 <= c < t.components && t.Deviation(low, high, f, c) == worst
      {
        var deviation := t.Deviation(low, high, frame, component);
        if deviation > limit {
          DeviationIsDistance(t, low, high, frame, component, limit);
          return 0.0, false;
        }
        worst := Max(worst, deviation);
      }
    }
    ok := true;
    AllNear(t, low, high, limit);
    AllNear(t, low, high, worst);
    SomeAt(t, low, high, worst);
  }

  lemma AllNear(t: Track, low: nat, high: nat, limit: real)
    requires t.Valid() && low < high < |t.times|
    requires forall f, c :: low < f < high && 0 <= c < t.components ==> t.Deviation(low, high, f, c) <= limit
    ensures t.Fits(low, high, limit)
  {
    hide Track.Deviation, Track.Near;
    forall f, c | low < f < high && 0 <= c < t.components ensures t.Near(low, high, f, c, limit) {
      DeviationIsDistance(t, low, high, f, c, limit);
    }
  }

  lemma SomeAt(t: Track, low: nat, high: nat, worst: real)
    requires t.Valid() && low < high < |t.times|
    requires worst == 0.0 || exists f, c :: low < f < high && 0 <= c < t.components && t.Deviation(low, high, f, c) == worst
    ensures worst == 0.0 || exists f, c :: low < f < high && 0 <= c < t.components && t.LiesAt(low, high, f, c, worst)
  {
    hide Track.Deviation, Track.LiesAt;
    if worst != 0.0 {
      var f, c :| low < f < high && 0 <= c < t.components && t.Deviation(low, high, f, c) == worst;
      DeviationIsDistance(t, low, high, f, c, worst);
    }
  }

  /** valueSpan; the first value of a component stands for both infinities. */
  method ValueSpan(t: Track) returns (span: real)
    requires t.Valid()
    ensures t.IsSpan(span)
  {
    span := 0.0;
    for component := 0 to t.components
      invariant span >= 0.0
      invariant forall f, g, c :: 0 <= f < |t.times| && 0 <= g < |t.times| && 0 <= c < component ==>
                  t.Row(f)[c] - t.Row(g)[c] <= span
      invariant span == 0.0 || exists f, g, c :: 0 <= f < |t.times| && 0 <= g < |t.times| && 0 <= c < component
                                                 && t.Row(f)[c] - t.Row(g)[c] == span
    {
      hide Track.Row;
      var low, high, lowAt, highAt := ComponentRange(t, component);
      assert t.Row(highAt)[component] - t.Row(lowAt)[component] == high - low;
      forall f, g | 0 <= f < |t.times| && 0 <= g < |t.times|
        ensures t.Row(f)[component] - t.Row(g)[component] <= Max(span, high - low)
      {
      }
      if high > low {
        span := Max(span, high - low);
      }
    }
  }

  /** The inner loop of valueSpan. */
  method ComponentRange(t: Track, component: nat) returns (low: real, high: real, ghost lowAt: nat, ghost highAt: nat)
    requires t.Valid() && component < t.components
    ensures lowAt < |t.times| && low == t.Row(lowAt)[component]
    ensures highAt < |t.times| && high == t.Row(highAt)[component]
    ensures forall f :: 0 <= f < |t.times| ==> low <= t.Row(f)[component] <= high
  {
    low, high, lowAt, highAt := t.Value(0, component), t.Value(0, component), 0, 0;
    for frame := 0 to |t.times|
      invariant lowAt < |t.times| && low == t.Row(lowAt)[component]
      invariant highAt < |t.times| && high == t.Row(highAt)[component]
      invariant low <= t.Row(0)[component] <= high
      invariant forall f :: 0 <= f < frame ==> low <= t.Row(f)[component] <= high
    {
      hide Track.Value, Track.Row;
      var value := t.Value(frame, component);
      if value < low { low, lowAt := value, frame; }
      if value > high { high, highAt := value, frame; }
    }
  }

  lemma NothingBetween(t: Track, low: nat, limit: real)
    requires t.Valid() && low + 1 < |t.times|
    ensures t.Fits(low, low + 1, limit)
  {
  }

  lemma LinkNext(t: Track, next: nat, limit: real)
    requires t.Valid() && next + 1 < |t.times|
    ensures t.Link(next, next + 1, limit)
  {
    NothingBetween(t, next, limit);
  }

  /** A link more at the end. */
  lemma KeptMore(t: Track, keep: seq<nat>, b: nat, limit: real)
    requires t.Valid() && t.Kept(keep, limit) && t.Link(keep[|keep| - 1], b, limit)
    ensures t.Kept(keep + [b], limit)
  {
    hide Track.Link;
  }

  lemma KeptPrefix(t: Track, keep: seq<nat>, b: nat, limit: real)
    requires t.Valid() && keep != [] && t.Kept(keep + [b], limit)
    ensures t.Kept(keep, limit)
  {
    hide Track.Link;
    var all := keep + [b];
    assert forall i :: 0 <= i < |keep| ==> all[i] == keep[i];
  }

  lemma ReachedMore(t: Track, keep: seq<nat>, b: nat, worst: real)
    requires t.Valid() && t.Reached(keep, worst)
    ensures t.Reached(keep + [b], worst)
  {
    hide Track.Worst;
    var all := keep + [b];
    if worst != 0.0 {
      var i, j :| 0 <= i < j < |keep| && j == i + 1 && t.Worst(keep[i], keep[j], worst);
      assert all[i] == keep[i] && all[j] == keep[j];
    }
  }

  lemma ReachedLast(t: Track, keep: seq<nat>, b: nat, worst: real)
    requires t.Valid() && keep != [] && t.Worst(keep[|keep| - 1], b, worst)
    ensures t.Reached(keep + [b], worst)
  {
    hide Track.Worst;
    var all, n := keep + [b], |keep|;
    assert all[n - 1] == keep[n - 1] && all[n] == b;
    assert t.Worst(all[n - 1], all[n], worst);
  }

  /** Between neighbouring frames nothing is reached. */
  lemma ReachedPrefix(t: Track, keep: seq<nat>, worst: real)
    requires t.Valid() && keep != [] && keep[|keep| - 1] + 1 < |t.times| && t.Reached(keep + [keep[|keep| - 1] + 1], worst)
    ensures t.Reached(keep, worst)
  {
    var anchor := keep[|keep| - 1];
    AloneIsZero(t, anchor, worst);
    hide Track.Worst;
    var all := keep + [anchor + 1];
    if worst != 0.0 {
      var i, j :| 0 <= i < j < |all| && j == i + 1 && t.Worst(all[i], all[j], worst);
      assert all[i] == keep[i];
      assert j < |keep| ==> all[j] == keep[j];
    }
  }

  lemma WorstMore(t: Track, keep: seq<nat>, b: nat, worst: real)
    requires t.Valid() && t.WorstOver(keep, worst) && t.Link(keep[|keep| - 1], b, worst)
    ensures t.WorstOver(keep + [b], worst)
  {
    hide Track.Link, Track.Reached;
    KeptMore(t, keep, b, worst);
    ReachedMore(t, keep, b, worst);
  }

  /** The next frame becomes an anchor of its own. */
  lemma KeepNext(t: Track, keep: seq<nat>, next: nat, limit: real, worst: real)
    requires t.Valid() && t.Kept(keep + [next], limit) && t.WorstOver(keep + [next], worst) && next + 1 < |t.times|
    ensures t.Kept(keep + [next] + [next + 1], limit) && t.WorstOver(keep + [next] + [next + 1], worst)
  {
    hide *;
    LinkNext(t, next, limit);
    LinkNext(t, next, worst);
    KeptMore(t, keep + [next], next + 1, limit);
    WorstMore(t, keep + [next], next + 1, worst);
  }

  lemma FitsMore(t: Track, low: nat, high: nat, a: real, b: real)
    requires t.Valid() && t.Link(low, high, a) && a <= b
    ensures t.Link(low, high, b)
  {
    hide Track.Near;
    forall f, c | low < f < high && 0 <= c < t.components ensures t.Near(low, high, f, c, b) {
      NearMore(t, low, high, f, c, a, b);
    }
  }

  lemma KeptWithMore(t: Track, keep: seq<nat>, a: real, b: real)
    requires t.Valid() && t.Kept(keep, a) && a <= b
    ensures t.Kept(keep, b)
  {
    hide Track.Link;
    forall i, j | 0 <= i < j < |keep| && j == i + 1 ensures t.Link(keep[i], keep[j], b) {
      FitsMore(t, keep[i], keep[j], a, b);
    }
  }

  lemma WorstFits(t: Track, a: nat, b: nat, worst: real)
    requires t.Valid() && a < b <= a + 257 && b < |t.times| && t.Worst(a, b, worst)
    ensures t.Link(a, b, worst) && worst >= 0.0
  {
  }

  /** The window behind the anchor grows over the frames it may drop. */
  lemma Widen(t: Track, keep: seq<nat>, anchor: nat, next: nat, limit: real, worst: real, more: real)
    requires t.Valid() && anchor + 1 < next < |t.times| && next <= anchor + 257
    requires keep != [] && keep[|keep| - 1] == anchor
    requires t.Kept(keep + [anchor + 1], limit) && t.WorstOver(keep + [anchor + 1], worst)
    requires t.Fits(anchor, next, limit) && t.Worst(anchor, next, more)
    ensures t.Kept(keep + [next], limit) && t.WorstOver(keep + [next], Max(worst, more))
  {
    hide Track.Kept, Track.Fits, Track.Worst, Track.Reached;
    var w := Max(worst, more);
    KeptPrefix(t, keep, anchor + 1, limit);
    KeptMore(t, keep, next, limit);
    KeptPrefix(t, keep, anchor + 1, worst);
    KeptWithMore(t, keep, worst, w);
    WorstFits(t, anchor, next, more);
    FitsMore(t, anchor, next, more, w);
    KeptMore(t, keep, next, w);
    ReachedPrefix(t, keep, worst);
    ReachedMore(t, keep, next, worst);
    ReachedLast(t, keep, next, more);
  }

  lemma AloneIsZero(t: Track, a: nat, worst: real)
    requires t.Valid() && a + 1 < |t.times|
    ensures t.Worst(a, a + 1, worst) ==> worst == 0.0
  {
  }

  /** The inner loop of decimateKeyframes: how far the window grows, if at all. */
  method Extend(t: Track, anchor: nat, next: nat, limit: real) returns (accepted: int, acceptedError: real)
    requires t.Valid() && anchor < next < |t.times| - 1 && t.Grown(anchor, next, limit)
    requires next == anchor + 1 || t.Blocked(anchor, next, limit)
    ensures accepted < 0 ==> t.Blocked(anchor, next, limit)
    ensures accepted < 0 || (next == anchor + 1 && next <= accepted < |t.times| - 1 && accepted - anchor <= 256)
    ensures accepted >= 0 ==> t.Grown(anchor, accepted + 1, limit) && t.Blocked(anchor, accepted + 1, limit)
    ensures accepted >= 0 ==> t.Worst(anchor, accepted + 1, acceptedError)
  {
    hide Track.Fits, Track.Worst;
    var window := next;
    accepted := -1;
    acceptedError := 0.0;
    while window < |t.times| - 1 && window - anchor <= LOOKAHEAD
      invariant next <= window < |t.times|
      invariant window == next ==> accepted == -1
      invariant window > next ==> accepted == window - 1 && next == anchor + 1 && accepted - anchor <= LOOKAHEAD
      invariant t.Grown(anchor, window, limit)
      invariant window > next ==> t.Worst(anchor, window, acceptedError)
      decreases |t.times| - window
    {
      var deviation, ok := WindowFits(t, anchor, window + 1, limit);
      if !ok {
        break;
      }
      accepted := window;
      acceptedError := deviation;
      window := window + 1;
    }
  }

  /** A neighbour more at the end. */
  lemma GreedyMore(t: Track, keep: seq<nat>, b: nat, limit: real)
    requires t.Valid() && keep != [] && b < |t.times| && t.Greedy(keep, limit)
    requires t.Grown(keep[|keep| - 1], b, limit) && t.Blocked(keep[|keep| - 1], b, limit)
    ensures t.Greedy(keep + [b], limit)
  {
    hide Track.Grown, Track.Blocked;
    var all := keep + [b];
    forall i, j | 0 <= i < j < |all| && j == i + 1
      ensures t.Grown(all[i], all[j], limit) && t.Blocked(all[i], all[j], limit)
    {
      assert all[i] == keep[i];
      if j < |keep| { assert all[j] == keep[j]; }
    }
  }

  lemma GrownFits(t: Track, a: nat, b: nat, limit: real)
    requires t.Valid() && a < b < |t.times| && t.Grown(a, b, limit)
    ensures t.Fits(a, b, limit)
  {
    hide Track.Fits;
  }

  lemma GrownNext(t: Track, a: nat, limit: real)
    requires t.Valid() && a + 1 < |t.times|
    ensures t.Grown(a, a + 1, limit)
  {
  }

  lemma LastIsBlocked(t: Track, a: nat, limit: real)
    requires t.Valid()
    ensures t.Blocked(a, |t.times| - 1, limit)
  {
  }

  lemma FirstIsGreedy(t: Track, limit: real)
    requires t.Valid()
    ensures t.Greedy([0], limit)
  {
  }

  /** The outer loop of decimateKeyframes. */
  method Decimate(t: Track, limit: real) returns (keep: seq<nat>, worst: real)
    requires t.Valid()
    ensures t.Kept(keep, limit) && t.Greedy(keep, limit) && t.WorstOver(keep, worst)
    ensures keep[|keep| - 1] == |t.times| - 1
  {
    keep := [0];
    worst := 0.0;
    var anchor, next := 0, 1;
    FirstWindow(t, limit);
    hide *;
    FirstIsGreedy(t, limit);
    GrownNext(t, 0, limit);
    while next < |t.times| - 1
      invariant anchor < next < |t.times| && keep != [] && keep[|keep| - 1] == anchor
      invariant t.Kept(keep + [next], limit) && t.WorstOver(keep + [next], worst)
      invariant t.Greedy(keep, limit) && t.Grown(anchor, next, limit)
      invariant next == anchor + 1 || t.Blocked(anchor, next, limit)
      decreases |t.times| - next
    {
      var accepted, acceptedError := Extend(t, anchor, next, limit);
      if accepted < 0 {
        KeepNext(t, keep, next, limit, worst);
        GreedyMore(t, keep, next, limit);
        GrownNext(t, next, limit);
        keep := keep + [next];
        anchor := next;
        next := next + 1;
        continue;
      }
      GrownFits(t, anchor, accepted + 1, limit);
      Widen(t, keep, anchor, accepted + 1, limit, worst, acceptedError);
      worst := Max(worst, acceptedError);
      next := accepted + 1;
    }
    LastIsBlocked(t, anchor, limit);
    GreedyMore(t, keep, next, limit);
    keep := keep + [|t.times| - 1];
  }

  /** decimateKeyframes: the kept frames rise from the first to the last; at most
      256 are dropped between neighbours, and no fewer than could be dropped one
      after the other; every dropped frame stays within tolerance times span of the
      line between its kept neighbours, in every component; and the error returned
      is the worst of them, over span. */
  method DecimateKeyframes(t: Track, tolerance: real) returns (keep: seq<nat>, error: real, ghost span: real)
    requires t.Valid()
    ensures t.IsSpan(span)
    ensures t.Kept(keep, tolerance * span) && t.Greedy(keep, tolerance * span) && keep[|keep| - 1] == |t.times| - 1
    ensures t.WorstOver(keep, error * span) && (span == 0.0 ==> error == 0.0)
  {
    var valueSpan := ValueSpan(t);
    span := valueSpan;
    assert valueSpan >= 0.0;
    hide Track.Kept, Track.WorstOver, Track.IsSpan, Track.Fits, Track.Worst, Track.Greedy;
    var limit := if valueSpan == 0.0 then 0.0 else tolerance * valueSpan;
    var worst;
    keep, worst := Decimate(t, limit);
    error := if valueSpan > 0.0 then worst / valueSpan else 0.0;
    hide *;
    Outcome(t, keep, tolerance, valueSpan, limit, worst, error);
  }

  // ---- the kept frames are determined ----

  lemma OneNeighbour(t: Track, a: nat, b: nat, c: nat, limit: real)
    requires t.Valid() && t.Link(a, b, limit) && t.Link(a, c, limit)
    requires t.Grown(a, b, limit) && t.Blocked(a, b, limit) && t.Grown(a, c, limit) && t.Blocked(a, c, limit)
    ensures b == c
  {
    hide Track.Fits;
  }

  lemma {:induction false} SameUpTo(t: Track, k: seq<nat>, l: seq<nat>, limit: real, n: nat)
    requires t.Valid() && t.Kept(k, limit) && t.Greedy(k, limit) && t.Kept(l, limit) && t.Greedy(l, limit)
    requires n < |k| && n < |l|
    ensures k[..n + 1] == l[..n + 1]
  {
    hide Track.Link, Track.Grown, Track.Blocked;
    if n > 0 {
      SameUpTo(t, k, l, limit, n - 1);
      assert k[n - 1] == k[..n][n - 1] == l[..n][n - 1] == l[n - 1];
      OneNeighbour(t, k[n - 1], k[n], l[n], limit);
      assert k[..n + 1] == k[..n] + [k[n]] && l[..n + 1] == l[..n] + [l[n]];
    }
  }

  lemma EndsThere(t: Track, k: seq<nat>, limit: real, n: nat)
    requires t.Valid() && t.Kept(k, limit) && n < |k| && k[n] == |t.times| - 1
    ensures n == |k| - 1
  {
    hide Track.Fits;
    assert n + 1 < |k| ==> t.Link(k[n], k[n + 1], limit);
  }

  /** No other frames can be kept: these conditions have one solution. */
  lemma KeptIsUnique(t: Track, k: seq<nat>, l: seq<nat>, limit: real)
    requires t.Valid() && t.Kept(k, limit) && t.Greedy(k, limit) && t.Kept(l, limit) && t.Greedy(l, limit)
    requires k[|k| - 1] == |t.times| - 1 && l[|l| - 1] == |t.times| - 1
    ensures k == l
  {
    hide Track.Kept, Track.Greedy;
    var n := if |k| <= |l| then |k| - 1 else |l| - 1;
    assert k != [] && l != [] by { KeptNotEmpty(t, k, limit); KeptNotEmpty(t, l, limit); }
    SameUpTo(t, k, l, limit, n);
    assert k[n] == k[..n + 1][n] == l[..n + 1][n] == l[n];
    EndsThere(t, k, limit, n);
    EndsThere(t, l, limit, n);
    assert k[..|k|] == k && l[..|l|] == l;
  }

  lemma KeptNotEmpty(t: Track, k: seq<nat>, limit: real)
    requires t.Valid() && t.Kept(k, limit)
    ensures k != []
  {
  }

  lemma FirstWindow(t: Track, limit: real)
    requires t.Valid()
    ensures t.Kept([0] + [1], limit) && t.WorstOver([0] + [1], 0.0)
  {
    LinkNext(t, 0, limit);
    LinkNext(t, 0, 0.0);
    hide Track.Link;
  }

  /** The error over span, times span, is the worst deviation again. */
  lemma Outcome(t: Track, keep: seq<nat>, tolerance: real, span: real, limit: real, worst: real, error: real)
    requires t.Valid() && span >= 0.0 && t.Kept(keep, limit) && t.Greedy(keep, limit) && t.WorstOver(keep, worst)
    requires limit == if span == 0.0 then 0.0 else tolerance * span
    requires error == if span > 0.0 then worst / span else 0.0
    ensures t.Kept(keep, tolerance * span) && t.Greedy(keep, tolerance * span) && t.WorstOver(keep, error * span)
  {
    hide Track.Kept, Track.Greedy, Track.Worst;
    var again := error * span;
    if span > 0.0 {
      Requotient(worst, span);
      assert again == worst;
    } else {
      Nullify(tolerance, span);
      Nullify(error, span);
      assert again == 0.0 && limit == 0.0;
      assert t.WorstOver(keep, again);
    }
  }

  lemma Nullify(x: real, y: real)
    requires y == 0.0
    ensures x * y == 0.0
  {
  }

  lemma Requotient(x: real, y: real)
    requires y > 0.0
    ensures x / y * y == x
  {
  }
}
