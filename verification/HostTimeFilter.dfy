/** The filter from sample time to host time: a regression over a ring of recent points. */
module HostTimeFilters {
  import opened Rounding
  import opened LinearRegressions

  const NUM_POINTS := 512

  /** The last `NUM_POINTS` samples, or all if they are fewer. */
  function Window(samples: seq<Point>): seq<Point> {
    if |samples| <= NUM_POINTS then samples else samples[|samples| - NUM_POINTS..]
  }

  /** The sequence read from an index on, and round. */
  function Rotated<T>(s: seq<T>, index: nat): seq<T>
    requires index <= |s|
  {
    s[index..] + s[..index]
  }

  /** The ring holds the window: in order while it fills, and from the index on after that. */
  ghost predicate IsRing(points: seq<Point>, index: nat, samples: seq<Point>) {
    && index == |samples| % NUM_POINTS
    && if |samples| < NUM_POINTS then points == samples
       else |points| == NUM_POINTS && Rotated(points, index) == Window(samples)
  }

  /** Overwriting the oldest element drops it and appends the new one. */
  lemma OverwriteOldest<T>(s: seq<T>, index: nat, x: T)
    requires index < |s|
    ensures var next := if index + 1 == |s| then 0 else index + 1;
            Rotated(s[index := x], next) == Rotated(s, index)[1..] + [x]
  {
    var t := s[index := x];
    assert t[index + 1..] == s[index + 1..] && t[..index + 1] == s[..index] + [x];
    if index + 1 == |s| {
      assert t[0..] + t[..0] == t == t[..|s|];
    }
  }

  lemma WindowStep(samples: seq<Point>, point: Point)
    requires |samples| >= NUM_POINTS
    ensures Window(samples + [point]) == Window(samples)[1..] + [point]
  {
  }

  lemma RingIndex(n: nat)
    ensures (n + 1) % NUM_POINTS == (n % NUM_POINTS + 1) % NUM_POINTS
         == if n % NUM_POINTS + 1 == NUM_POINTS then 0 else n % NUM_POINTS + 1
  {
  }

  /** One more sample moves the ring and the window alike. */
  lemma RingStep(points: seq<Point>, index: nat, samples: seq<Point>, point: Point)
    requires IsRing(points, index, samples)
    ensures |points| < NUM_POINTS ==> IsRing(points + [point], (index + 1) % NUM_POINTS, samples + [point])
    ensures |points| >= NUM_POINTS ==>
              index < |points| && IsRing(points[index := point], (index + 1) % NUM_POINTS, samples + [point])
  {
    hide Window, Rotated;
    RingIndex(|samples|);
    if |samples| >= NUM_POINTS {
      OverwriteOldest(points, index, point);
      WindowStep(samples, point);
    } else if |samples| + 1 == NUM_POINTS {
      FullRing(points + [point]);
    }
  }

  lemma FullRing(samples: seq<Point>)
    requires |samples| == NUM_POINTS
    ensures Rotated(samples, 0) == samples == Window(samples)
  {
  }

  /** The regression over the ring is the regression over the window. */
  lemma RingFit(points: seq<Point>, index: nat, samples: seq<Point>)
    requires IsRing(points, index, samples) && samples != []
    ensures points != [] && Window(samples) != [] && Fit(points) == Fit(Window(samples))
  {
    hide Fit;
    if |samples| >= NUM_POINTS {
      FitOfRotation(points[index..], points[..index]);
      assert points[..index] + points[index..] == points;
    }
  }

  /** The nearest microsecond to the line, or one of the two. */
  ghost predicate IsOnLine(line: Line, sampleTime: real, hostTime: int) {
    IsNearest(line.slope * sampleTime + line.intercept, hostTime)
  }

  ghost predicate IsNearest(exact: real, r: int) { exact - 0.5 <= r as real <= exact + 0.5 }

  lemma RoundedIsOnLine(line: Line, sampleTime: real)
    ensures IsOnLine(line, sampleTime, LlRound(line.slope * sampleTime + line.intercept))
  {
    var exact := line.slope * sampleTime + line.intercept;
    LlRoundIs(exact, LlRound(exact));
  }

  class HostTimeFilter {
    var index: nat
    var points: seq<Point>
    ghost var samples: seq<Point>

    ghost predicate Valid()
      reads this
    {
      IsRing(points, index, samples)
    }

    constructor ()
      ensures Valid() && samples == []
    {
      index, points, samples := 0, [], [];
    }

    method Reset()
      modifies this
      ensures Valid() && samples == []
    {
      index, points, samples := 0, [], [];
    }

    /** Reads the clock at a sample time, and answers with the line through the last samples. */
    method SampleTimeToHostTime(sampleTime: real, micros: int) returns (hostTime: int)
      requires Valid()
      modifies this
      ensures Valid() && samples == old(samples) + [Point(sampleTime, micros as real)]
      ensures Window(samples) != [] && IsOnLine(Fit(Window(samples)), sampleTime, hostTime)
    {
      hide Fit, IsRing, IsOnLine, LlRound;
      var point := Point(sampleTime, micros as real);
      RingStep(points, index, samples, point);
      if |points| < NUM_POINTS {
        points := points + [point];
      } else {
        points := points[index := point];
      }
      index := (index + 1) % NUM_POINTS;
      samples := samples + [point];
      RingFit(points, index, samples);
      var line := LinearRegression(points);
      hostTime := LlRound(line.slope * sampleTime + line.intercept);
      RoundedIsOnLine(line, sampleTime);
    }
  }

  /** Over any number of samples, a clock that is affine in the sample time is answered to half a
      microsecond, and exactly where it reads whole microseconds, as soon as two different sample
      times are in the window. */
  lemma AffineClock(samples: seq<Point>, clock: Line, sampleTime: real, hostTime: int, micros: int)
    requires !SameX(Window(samples))
    requires forall i :: 0 <= i < |Window(samples)| ==>
               Window(samples)[i].y == clock.slope * Window(samples)[i].x + clock.intercept
    requires IsOnLine(Fit(Window(samples)), sampleTime, hostTime)
    ensures IsOnLine(clock, sampleTime, hostTime)
    ensures clock.slope * sampleTime + clock.intercept == micros as real ==> hostTime == micros
  {
    hide Fit;
    AffineIsRecovered(Window(samples), clock);
    Whole(clock.slope * sampleTime + clock.intercept, hostTime, micros);
  }

  lemma Whole(exact: real, r: int, k: int)
    requires IsNearest(exact, r)
    ensures exact == k as real ==> r == k
  {
  }
}
