// Sampling an arc from a table of points on a circle: how many points, which table entries, and
// how the step is evened out when it does not divide the range.
module ArcSampler {
  const SAMPLES: int := 48   // entries in the table, once around the circle

  // A point of the path: the centre, or a table entry scaled and moved.
  datatype Point = Earlier(tag: int) | Center | Sample(index: int)

  function Abs(x: int): (r: int)
    ensures r == x || r == -x
    ensures r >= 0
  {
    if x < 0 then -x else x
  }

  // Remainder with the sign of the dividend.
  function Rem(x: int, m: int): (r: int)
    requires m > 0
    ensures -m < r < m && (x >= 0 ==> r >= 0) && (x <= 0 ==> r <= 0)
  {
    if x >= 0 then x % m else -((-x) % m)
  }

  function Wrapped(x: int): (r: int)
    ensures 0 <= r < SAMPLES
  {
    x % SAMPLES
  }

  // Bringing a remainder up to a table index gives the place on the circle.
  lemma RemWraps(x: int)
    ensures var r := Rem(x, SAMPLES); Wrapped(x) == if r < 0 then r + SAMPLES else r
  {
  }

  lemma WrapsBack(x: int, i: int, d: int)
    requires Wrapped(x) == i && -SAMPLES < d < SAMPLES
    ensures Wrapped(x + d) == if i + d >= SAMPLES then i + d - SAMPLES else if i + d < 0 then i + d + SAMPLES else i + d
  {
  }

  datatype Plan = Plan(samples: int, first: int, extra: bool)

  // How many points, how long the first step is and whether the end needs a point of its own.
  function PlanOf(range: int, step: int): (p: Plan)
    requires range >= 0 && step >= 1
  {
    if step == 1 then Plan(range + 1, 1, false)
    else
      var over := range % step;
      if over == 0 then Plan(range / step + 1, step, false)
      else Plan(range / step + 2, step - (step - over) / 2, true)
  }

  // How far point k is from the start, along the arc.
  function Offset(k: nat, range: int, step: int): int
    requires range >= 0 && step >= 1
  {
    var p := PlanOf(range, step);
    if k == 0 then 0 else if p.extra && k >= p.samples - 1 then range else p.first + (k - 1) * step
  }

  function Regular(k: nat, first: int, step: int): int { if k == 0 then 0 else first + (k - 1) * step }

  // The whole number of steps, and what is over.
  lemma PlanParts(range: int, step: int)
    requires range >= 0 && step >= 1
    ensures var p := PlanOf(range, step);
      && (!p.extra ==> p.first == step && p.samples >= 1 && range == (p.samples - 1) * step)
      && (p.extra ==>
            var over := range % step;
            && 0 < over < step && range == (p.samples - 2) * step + over
            && p.first == step - (step - over) / 2 && p.samples >= 2)
  {
    assert range == range / step * step + range % step;
    if step == 1 { assert range % 1 == 0 && (range + 1 - 1) * 1 == range; }
  }

  // The regular points are those that do not pass the end, and there are as many as planned.
  lemma PlanExact(range: int, step: int, k: nat)
    requires range >= 0 && step >= 1
    ensures var p := PlanOf(range, step);
      var n := if p.extra then p.samples - 1 else p.samples;
      n >= 1 && 1 <= p.first <= step && (Regular(k, p.first, step) <= range <==> k < n)
  {
    hide PlanOf, Regular;
    PlanParts(range, step);
    var p := PlanOf(range, step);
    RegularIs(k, p.first, step);
    var n := if p.extra then p.samples - 1 else p.samples;
    if k >= 1 {
      if k < n { Times(k - 1, n - 2, step); } else { Times(n - 1, k - 1, step); }
    }
    if n >= 2 { Distribute(n - 2, step); }
  }

  lemma RegularIs(k: nat, first: int, step: int)
    ensures Regular(k, first, step) == if k == 0 then 0 else first + (k - 1) * step
  {
  }

  lemma Times(a: int, b: int, m: int)
    requires a <= b && m >= 0
    ensures a * m <= b * m
  {
  }

  // Points follow one another along the arc, no more than a step apart, from start to end; if the
  // first step is shortened and taken, the first and the last gap differ by at most one.
  lemma OffsetsAdvance(range: int, step: int, k: nat)
    requires range >= 0 && step >= 1
    ensures var p := PlanOf(range, step);
      && p.samples >= 1 && Offset(0, range, step) == 0
      && (p.samples > 1 || range == 0 ==> Offset(p.samples - 1, range, step) == range)
      && (range == 0 <==> p.samples == 1)
      && (k + 1 < p.samples ==> 0 < Offset(k + 1, range, step) - Offset(k, range, step) <= step)
      && (p.extra && p.samples >= 3 ==>
            var last := range - Offset(p.samples - 2, range, step);
            Offset(1, range, step) - last == 0 || Offset(1, range, step) - last == 1)
  {
    var p := PlanOf(range, step);
    hide PlanOf;
    PlanParts(range, step);
    PlanExact(range, step, 0);
    if p.extra && p.samples >= 3 { Distribute(p.samples - 3, step); }
    if !p.extra && p.samples >= 2 { Distribute(p.samples - 2, step); }
    if 1 <= k && k + 1 < p.samples { Distribute(k - 1, step); }
    if !p.extra && p.samples == 1 { assert (p.samples - 1) * step == 0; }
  }

  lemma Distribute(n: nat, m: int)
    ensures (n + 1) * m == n * m + m
  {
  }

  // The sample a distance d along the arc that runs from a_min to a_max.
  function Along(aMin: int, aMax: int, d: int): int { if aMax >= aMin then aMin + d else aMin - d }

  function StepOf(aStep: int, segments: int): (s: int)
    requires segments >= 1
    ensures 1 <= s <= SAMPLES / 4
  {
    var s := if aStep <= 0 then SAMPLES / segments else aStep;
    if s < 1 then 1 else if s > SAMPLES / 4 then SAMPLES / 4 else s
  }

  // Unless a step is asked for, it is the longest one, up to a quarter of the circle, that takes as
  // many segments around the circle as wanted, if there is one.
  lemma StepIsLongest(aStep: int, segments: int)
    requires segments >= 1
    ensures var s := StepOf(aStep, segments);
      && SAMPLES == 4 * (SAMPLES / 4)
      && if 0 < aStep then s == aStep || (aStep > SAMPLES / 4 == s)
      else
        && (s * segments <= SAMPLES || (s == 1 && segments > SAMPLES))
        && forall t :: 0 < t <= SAMPLES / 4 && t * segments <= SAMPLES ==> t <= s
  {
    if aStep <= 0 {
      var q := SAMPLES / segments;
      Whole(segments);
      forall t | 0 < t <= SAMPLES / 4 && t * segments <= SAMPLES ensures t <= q {
        TimesMore(q + 1, t, segments);
      }
      TimesMore(StepOf(aStep, segments), q, segments);
    }
  }

  lemma Whole(m: int)
    requires m >= 1
    ensures var q := SAMPLES / m; 0 <= q && q * m <= SAMPLES < (q + 1) * m
  {
  }

  lemma TimesMore(s: int, q: int, m: int)
    requires m >= 1
    ensures s <= q ==> s * m <= q * m
  {
  }

  function ArcPoints(aMin: int, aMax: int, step: int): (ps: seq<Point>)
    requires step >= 1
  {
    var range := Abs(aMax - aMin);
    var n := PlanOf(range, step).samples;
    seq(if n < 0 then 0 else n, k requires 0 <= k => Sample(Wrapped(Along(aMin, aMax, Offset(k, range, step)))))
  }

  // An arc has a point at each end.
  lemma ArcEnds(aMin: int, aMax: int, step: int)
    requires step >= 1
    ensures var ps := ArcPoints(aMin, aMax, step);
      && ps != [] && ps[0] == Sample(Wrapped(aMin)) && ps[|ps|-1] == Sample(Wrapped(aMax))
  {
    hide PlanOf;
    OffsetsAdvance(Abs(aMax - aMin), step, 0);
  }

  class Path {
    var points: seq<Point>

    // Write the regular points from place `at` on; `first` is the length of the first step.
    method WriteRegular(at: nat, aMin: int, aMax: int, first: int, step: int) returns (out: nat)
      requires 1 <= step <= SAMPLES / 4 && first == PlanOf(Abs(aMax - aMin), step).first
      requires |points| == at + PlanOf(Abs(aMax - aMin), step).samples
      modifies this
      ensures var p := PlanOf(Abs(aMax - aMin), step);
        out == at + (if p.extra then p.samples - 1 else p.samples) && |points| == |old(points)|
      ensures forall j :: 0 <= j < at ==> points[j] == old(points[j])
      ensures forall j :: at <= j < out ==>
        points[j] == Sample(Wrapped(Along(aMin, aMax, Regular(j - at, first, step))))
    {
      hide PlanOf, Wrapped, Rem, Regular;
      ghost var p, range := PlanOf(Abs(aMax - aMin), step), Abs(aMax - aMin);
      ghost var n := if p.extra then p.samples - 1 else p.samples;
      PlanExact(range, step, 0);
      RegularSteps(0, first, step);
      out := at;
      var a, sample, st := aMin, aMin, first;
      if sample < 0 || sample >= SAMPLES {
        sample := Rem(sample, SAMPLES);
        if sample < 0 {
          sample := sample + SAMPLES;
        }
      }
      RemWraps(aMin);
      InTable(aMin);
      if aMax >= aMin {
        while a <= aMax
          invariant at <= out <= at + n && |points| == |old(points)| && a == aMin + Regular(out - at, first, step)
          invariant st == (if out == at then first else step)
          invariant sample == Wrapped(a) || sample == Wrapped(a) + SAMPLES
          invariant forall j :: 0 <= j < at ==> points[j] == old(points[j])
          invariant forall j :: at <= j < out ==>
            points[j] == Sample(Wrapped(Along(aMin, aMax, Regular(j - at, first, step))))
          decreases aMax - a
        {
          PlanExact(range, step, out - at);
          RegularSteps(out - at, first, step);
          WrapsBack(a, Wrapped(a), st);
          if sample >= SAMPLES {
            sample := sample - SAMPLES;
          }
          points := points[out := Sample(sample)];
          out := out + 1;
          a, sample, st := a + st, sample + st, step;
        }
      } else {
        while a >= aMax
          invariant at <= out <= at + n && |points| == |old(points)| && a == aMin - Regular(out - at, first, step)
          invariant st == (if out == at then first else step)
          invariant sample == Wrapped(a) || sample == Wrapped(a) - SAMPLES
          invariant forall j :: 0 <= j < at ==> points[j] == old(points[j])
          invariant forall j :: at <= j < out ==>
            points[j] == Sample(Wrapped(Along(aMin, aMax, Regular(j - at, first, step))))
          decreases a - aMax
        {
          PlanExact(range, step, out - at);
          RegularSteps(out - at, first, step);
          WrapsBack(a, Wrapped(a), -st);
          if sample < 0 {
            sample := sample + SAMPLES;
          }
          points := points[out := Sample(sample)];
          out := out + 1;
          a, sample, st := a - st, sample - st, step;
        }
      }
      PlanExact(range, step, out - at);
    }

    // Add an arc from sample a_min to sample a_max, in whichever direction that is; `segments`
    // is how many segments a circle of this radius gets, and `tiny` says that it gets none.
    method PathArcToFast(tiny: bool, segments: int, aMin: int, aMax: int, aStep: int)
      requires segments >= 1
      modifies this
      ensures points == old(points) + if tiny then [Center] else ArcPoints(aMin, aMax, StepOf(aStep, segments))
    {
      hide PlanOf, Wrapped, Rem, Regular;
      if tiny {
        points := points + [Center];
        return;
      }
      var step := if aStep <= 0 then SAMPLES / segments else aStep;
      step := if step < 1 then 1 else if step > SAMPLES / 4 then SAMPLES / 4 else step;
      var range := Abs(aMax - aMin);
      PlanExact(range, step, 0);
      var samples, first, extra := CountSamples(range, step);
      ghost var was := points;
      var at := |points|;
      points := points + seq(samples, i => Earlier(i));
      var out := WriteRegular(at, aMin, aMax, first, step);
      if extra {
        var normalized := Rem(aMax, SAMPLES);
        if normalized < 0 {
          normalized := normalized + SAMPLES;
        }
        RemWraps(aMax);
        points := points[out := Sample(normalized)];
        out := out + 1;
      }
      assert out == |points|;
      PointsAgree(points, was, aMin, aMax, first, step);
    }

    method CountSamples(range: int, step: int) returns (samples: int, first: int, extra: bool)
      requires range >= 0 && step >= 1
      ensures Plan(samples, first, extra) == PlanOf(range, step)
    {
      samples, first, extra := range + 1, step, false;
      if step > 1 {
        samples := range / step + 1;
        var over := range % step;
        if over > 0 {
          extra := true;
          samples := samples + 1;
          if range > 0 {
            first := first - (step - over) / 2;
          }
        }
      }
    }

    lemma PointsAgree(ps: seq<Point>, was: seq<Point>, aMin: int, aMax: int, first: int, step: int)
      requires step >= 1
      requires var p := PlanOf(Abs(aMax - aMin), step);
        var n := if p.extra then p.samples - 1 else p.samples;
        && first == p.first && |ps| == |was| + p.samples && p.samples >= 1
        && (forall j :: 0 <= j < |was| ==> ps[j] == was[j])
        && (forall j :: |was| <= j < |was| + n ==>
             ps[j] == Sample(Wrapped(Along(aMin, aMax, Regular(j - |was|, first, step)))))
        && (p.extra ==> ps[|ps|-1] == Sample(Wrapped(aMax)))
      ensures ps == was + ArcPoints(aMin, aMax, step)
    {
      hide PlanOf, Wrapped;
      PlanParts(Abs(aMax - aMin), step);
      var arc := ArcPoints(aMin, aMax, step);
      forall j | 0 <= j < |arc| ensures ps[|was| + j] == arc[j] {}
    }
  }

  lemma RegularSteps(k: nat, first: int, step: int)
    ensures Regular(0, first, step) == 0
    ensures Regular(k + 1, first, step) == Regular(k, first, step) + if k == 0 then first else step
  {
    if k > 0 { Distribute(k - 1, step); }
  }

  lemma InTable(x: int)
    ensures 0 <= x < SAMPLES ==> Wrapped(x) == x
  {
  }
}
