/**
 The disciplined clock: a gated sliding window of observations, and the straight
 line through them that `now_ns` reads.
 */
module DriftClock {
  import opened Options
  import opened Integers
  import opened LeastSquares

  const MIN_SAMPLES_TO_GATE: nat := 8
  const MAX_CONSECUTIVE_REJECTS: nat := 8

  datatype Outcome = Folded | Rejected | Restarted

  /** How a window becomes a published line. Which line it is does not matter to the
      window's bookkeeping, so the run properties below hold for every estimator. */
  type Estimator = seq<Sample> -> Fit

  /** The clock's own estimator. */
  ghost function Best(s: seq<Sample>): Fit {
    if s == [] then Fit(0, 0.0, 1.0) else WindowFit(s)
  }

  /** The state under the clock's lock. */
  datatype State = State(gate: nat, samples: seq<Sample>, capacity: nat, fit: Option<Fit>, rejects: nat) {
    ghost predicate Valid(best: Estimator) {
      && capacity >= 2 && |samples| <= capacity
      && rejects < MAX_CONSECUTIVE_REJECTS
      && (rejects > 0 ==> |samples| >= MIN_SAMPLES_TO_GATE)
      && fit == if samples == [] then None else Some(best(samples))
    }
  }

  function Abs(r: real): real {
    if r < 0.0 then -r else r
  }

  /** Whether a sample lands outside the gate around the current fit. */
  predicate Gated(st: State, s: Sample) {
    && |st.samples| >= MIN_SAMPLES_TO_GATE
    && st.fit.Some?
    && Abs(s.master as real - Project(st.fit.value, s.local)) > st.gate as real
  }

  /** The window after taking in a sample: the oldest makes room. */
  function Slide(samples: seq<Sample>, capacity: nat, s: Sample): (r: seq<Sample>)
    ensures r != []
    ensures 0 < capacity && |samples| <= capacity ==> |r| <= capacity
  {
    (if samples != [] && |samples| == capacity then samples[1..] else samples) + [s]
  }

  ghost function Observe(best: Estimator, st: State, s: Sample): (State, Outcome) {
    if Gated(st, s) && st.rejects + 1 < MAX_CONSECUTIVE_REJECTS then
      (st.(rejects := st.rejects + 1), Rejected)
    else
      var window := Slide(if Gated(st, s) then [] else st.samples, st.capacity, s);
      (st.(samples := window, fit := Some(best(window)), rejects := 0),
       if Gated(st, s) then Restarted else Folded)
  }

  function Start(window: nat, gate: nat): (st: State)
    ensures forall best: Estimator :: st.Valid(best)
  {
    State(gate, [], if window > 2 then window else 2, None, 0)
  }

  /** Reading an estimate as `u64`: negative saturates to 0, the rest truncates and
      saturates at the top. */
  function ToU64(est: real): (n: nat)
    ensures est <= 0.0 ==> n == 0
    ensures 0.0 < est && est < U64_MAX as real + 1.0 ==> n as real <= est < n as real + 1.0
    ensures est >= U64_MAX as real + 1.0 ==> n == U64_MAX
  {
    if est <= 0.0 then 0 else if est.Floor > U64_MAX then U64_MAX else est.Floor
  }

  /** The master time a state reads at a reference instant: the instant itself before
      the first observation, then the fitted line. */
  ghost function ReadAt(best: Estimator, st: State, local: nat): nat {
    if st.samples == [] then local else ToU64(Project(best(st.samples), local))
  }

  /** The window's deltas from the integer means. */
  method Deltas(samples: seq<Sample>, meanX: int, meanY: int) returns (ds: seq<Delta>)
    ensures ds == Centre(samples, meanX as real, meanY as real)
  {
    ds := [];
    for i := 0 to |samples|
      invariant |ds| == i
      invariant forall j :: 0 <= j < i ==> ds[j] == Centre(samples, meanX as real, meanY as real)[j]
    {
      ds := ds + [Delta((samples[i].local - meanX) as real, (samples[i].master - meanY) as real)];
    }
  }

  /** First pass, newest sample first: total weight and weighted sums. */
  method FirstPass(ds: seq<Delta>) returns (weightTotal: real, weightedX: real, weightedY: real)
    ensures weightTotal == Sum(ds, One) && weightedX == Sum(ds, X) && weightedY == Sum(ds, Y)
  {
    var n := |ds|;
    weightTotal, weightedX, weightedY := 0.0, 0.0, 0.0;
    var weight := 1.0;
    for k := 0 to n
      invariant weight == Weight(k)
      invariant weightTotal == SumOf(ds, One, k) && weightedX == SumOf(ds, X, k) && weightedY == SumOf(ds, Y, k)
    {
      var d := ds[n - 1 - k];
      weightTotal := weightTotal + weight;
      weightedX := weightedX + weight * d.x;
      weightedY := weightedY + weight * d.y;
      weight := weight * RECENCY_DECAY;
    }
  }

  /** Second pass: the spread about the centroid. */
  method SecondPass(ds: seq<Delta>, centroidX: real, centroidY: real) returns (sxx: real, sxy: real)
    ensures sxx == Sum(Translate(ds, centroidX, centroidY), XX)
    ensures sxy == Sum(Translate(ds, centroidX, centroidY), XY)
  {
    var es := seq(|ds|, i requires 0 <= i < |ds| => Delta(ds[i].x - centroidX, ds[i].y - centroidY));
    assert es == Translate(ds, centroidX, centroidY);
    sxx, sxy := Products(es);
  }

  method Products(es: seq<Delta>) returns (sxx: real, sxy: real)
    ensures sxx == Sum(es, XX) && sxy == Sum(es, XY)
  {
    var n := |es|;
    sxx, sxy := 0.0, 0.0;
    var weight := 1.0;
    for k := 0 to n
      invariant weight == Weight(k)
      invariant sxx == SumOf(es, XX, k) && sxy == SumOf(es, XY, k)
    {
      var e := es[n - 1 - k];
      NextTerm(weight, e.x, e.y);
      sxx := sxx + weight * e.x * e.x;
      sxy := sxy + weight * e.x * e.y;
      weight := weight * RECENCY_DECAY;
    }
  }

  lemma NextTerm(w: real, ex: real, ey: real)
    ensures w * ex * ex == w * (ex * ex)
    ensures w * ex * ey == w * (ex * ey)
  {
  }

  /** The published line, from two weighted passes over the window. */
  method ComputeFit(samples: seq<Sample>) returns (fit: Fit)
    requires samples != []
    ensures fit == Best(samples)
  {
    var n := |samples|;
    var newest := samples[n - 1];
    if n == 1 {
      OneSampleFit(samples);
      return Fit(newest.local, newest.master as real, 1.0);
    }
    var meanX, meanY := IntegerMeans(samples);
    var ds := Deltas(samples, meanX, meanY);
    var weightTotal, weightedX, weightedY := FirstPass(ds);
    MeansOf(ds, weightTotal, weightedX, weightedY);
    var centroidX, centroidY := weightedX / weightTotal, weightedY / weightTotal;
    var sxx, sxy := SecondPass(ds, centroidX, centroidY);
    var slope := if sxx > 0.0 then sxy / sxx else 1.0;
    var anchorDx := (newest.local - meanX) as real;
    fit := Fit(newest.local, meanY as real + centroidY + slope * (anchorDx - centroidX), slope);
    TwoPasses(samples, meanX, meanY, ds, centroidX, centroidY, slope);
  }

  lemma OneSampleFit(samples: seq<Sample>)
    requires |samples| == 1
    ensures Best(samples) == Fit(samples[0].local, samples[0].master as real, 1.0)
  {
    CentringIsIrrelevant(samples, 0, 0);
  }

  lemma MeansOf(ds: seq<Delta>, weightTotal: real, weightedX: real, weightedY: real)
    requires ds != [] && weightTotal == Sum(ds, One) && weightedX == Sum(ds, X) && weightedY == Sum(ds, Y)
    ensures weightTotal > 0.0 && weightedX / weightTotal == Mean(ds, X) && weightedY / weightTotal == Mean(ds, Y)
  {
    TotalWeight(ds, |ds|);
  }

  /** What the two passes about the integer means find is the window's fit. */
  lemma TwoPasses(samples: seq<Sample>, meanX: int, meanY: int, ds: seq<Delta>, cx: real, cy: real, slope: real)
    requires |samples| > 1 && ds == Centre(samples, meanX as real, meanY as real)
    requires cx == Mean(ds, X) && cy == Mean(ds, Y)
    requires slope == Slope(Sum(Translate(ds, cx, cy), XX), Sum(Translate(ds, cx, cy), XY))
    ensures
      var newest := samples[|samples| - 1];
      Best(samples) == Fit(newest.local, meanY as real + cy + slope * ((newest.local - meanX) as real - cx), slope)
  {
    CentringIsIrrelevant(samples, meanX, meanY);
  }

  ghost function Locals(samples: seq<Sample>, n: nat): nat
    requires n <= |samples|
  {
    if n == 0 then 0 else Locals(samples, n - 1) + samples[n - 1].local
  }

  ghost function Masters(samples: seq<Sample>, n: nat): nat
    requires n <= |samples|
  {
    if n == 0 then 0 else Masters(samples, n - 1) + samples[n - 1].master
  }

  method IntegerMeans(samples: seq<Sample>) returns (meanX: nat, meanY: nat)
    requires samples != []
    ensures meanX == Locals(samples, |samples|) / |samples|
    ensures meanY == Masters(samples, |samples|) / |samples|
  {
    var sumX, sumY: nat := 0, 0;
    for i := 0 to |samples|
      invariant sumX == Locals(samples, i) && sumY == Masters(samples, i)
    {
      sumX, sumY := sumX + samples[i].local, sumY + samples[i].master;
    }
    meanX, meanY := sumX / |samples|, sumY / |samples|;
  }

  class Clock {
    const gate: nat
    const capacity: nat
    var samples: seq<Sample>
    var fit: Option<Fit>
    var consecutiveRejects: nat

    ghost function Contents(): State
      reads this
    {
      State(gate, samples, capacity, fit, consecutiveRejects)
    }

    ghost predicate Valid()
      reads this
    {
      Contents().Valid(Best)
    }

    constructor (window: nat, outlierGateNs: nat)
      ensures Valid() && Contents() == Start(window, outlierGateNs)
      ensures samples == [] && gate == outlierGateNs && capacity == if window < 2 then 2 else window
    {
      gate := outlierGateNs;
      capacity := if window > 2 then window else 2;
      samples, fit, consecutiveRejects := [], None, 0;
    }

    method ObserveSample(local: nat, master: nat) returns (outcome: Outcome)
      requires Valid()
      modifies this
      ensures Valid()
      ensures (Contents(), outcome) == Observe(Best, old(Contents()), Sample(local, master))
      ensures old(|samples|) < 8 ==> outcome == Folded
      ensures old(|samples|) >= 8 ==>
                (outcome != Folded <==> Outlying(Estimate(old(fit).value, local), gate, master))
    {
      OutcomeMeans(Best, Contents(), Sample(local, master));
      var s := Sample(local, master);
      var gated := |samples| >= MIN_SAMPLES_TO_GATE && fit.Some?
                   && Abs(master as real - Project(fit.value, local)) > gate as real;
      assert gated == Gated(Contents(), s);
      outcome := Folded;
      if gated {
        consecutiveRejects := consecutiveRejects + 1;
        if consecutiveRejects < MAX_CONSECUTIVE_REJECTS {
          return Rejected;
        }
        samples := [];
        outcome := Restarted;
      }
      consecutiveRejects := 0;
      if |samples| == capacity {
        samples := samples[1..];
      }
      samples := samples + [s];
      var f := ComputeFit(samples);
      fit := Some(f);
    }

    method ProjectNs(local: nat) returns (r: nat)
      requires Valid()
      ensures r == ReadAt(Best, Contents(), local)
      ensures fit.None? ==> r == local
      ensures fit.Some? && Estimate(fit.value, local) <= 0.0 ==> r == 0
      ensures fit.Some? && 0.0 < Estimate(fit.value, local) < U64_MAX as real + 1.0 ==>
                r as real <= Estimate(fit.value, local) < r as real + 1.0
      ensures fit.Some? && Estimate(fit.value, local) >= U64_MAX as real + 1.0 ==> r == U64_MAX
    {
      if fit.Some? {
        EstimateIsProjection(fit.value, local);
      }
      match fit
      case None => r := local;
      case Some(f) => r := ToU64(Project(f, local));
    }
  }

  // ----- what one observation does -----

  /** The line at a local instant, from its anchor and its slope. */
  ghost function Estimate(fit: Fit, local: nat): real {
    fit.master + fit.slope * (local as real - fit.anchorLocal as real)
  }

  lemma EstimateIsProjection(fit: Fit, local: nat)
    ensures Project(fit, local) == Estimate(fit, local)
  {
    assert (local - fit.anchorLocal) as real == local as real - fit.anchorLocal as real;
  }

  /** More than the gate above the line or below it. */
  ghost predicate Outlying(est: real, gate: nat, master: nat) {
    (master as real) < est - gate as real || (master as real) > est + gate as real
  }

  /** With eight samples or more, the observation is outlying. */
  ghost predicate IsOutlier(best: Estimator, st: State, s: Sample) {
    |st.samples| >= 8 && Outlying(Estimate(best(st.samples), s.local), st.gate, s.master)
  }

  lemma GateMeans(best: Estimator, st: State, s: Sample)
    requires st.Valid(best)
    ensures Gated(st, s) <==> IsOutlier(best, st, s)
  {
    EstimateIsProjection(best(st.samples), s.local);
  }

  /** The newest samples of a window, as many as leave room for one more, and that one. */
  ghost predicate IsWindowAfter(before: seq<Sample>, capacity: nat, s: Sample, after: seq<Sample>) {
    var kept := if |before| < capacity then |before| else capacity - 1;
    0 <= kept <= |before| && after == before[|before| - kept..] + [s]
  }

  lemma WindowSlides(samples: seq<Sample>, capacity: nat, s: Sample)
    requires |samples| <= capacity && capacity >= 2
    ensures IsWindowAfter(samples, capacity, s, Slide(samples, capacity, s))
  {
    assert samples[0..] == samples;
  }

  lemma OutcomeMeans(best: Estimator, st: State, s: Sample)
    requires st.Valid(best)
    ensures
      var outcome := Observe(best, st, s).1;
      && (outcome == Folded <==> !IsOutlier(best, st, s))
      && (outcome == Rejected <==> IsOutlier(best, st, s) && st.rejects < 7)
      && (outcome == Restarted <==> IsOutlier(best, st, s) && st.rejects == 7)
  {
    GateMeans(best, st, s);
  }

  /** What a clock does with one observation. From eight samples on, one that is outlying on
      either side is rejected, up to seven in a row, and the eighth starts the window over;
      any other is folded in. */
  lemma ObserveMeans(best: Estimator, st: State, s: Sample)
    requires st.Valid(best)
    ensures
      var (after, outcome) := Observe(best, st, s);
      && (outcome == Folded <==> !IsOutlier(best, st, s))
      && (outcome == Rejected <==> IsOutlier(best, st, s) && st.rejects < 7)
      && (outcome == Restarted <==> IsOutlier(best, st, s) && st.rejects == 7)
      && after.gate == st.gate && after.capacity == st.capacity
      && match outcome
         case Rejected => after.samples == st.samples && after.fit == st.fit && after.rejects == st.rejects + 1
         case Restarted => after.samples == [s] && after.fit == Some(best([s])) && after.rejects == 0
         case Folded =>
           IsWindowAfter(st.samples, st.capacity, s, after.samples) && after.fit == Some(best(after.samples)) && after.rejects == 0
  {
    OutcomeMeans(best, st, s);
    WindowSlides(st.samples, st.capacity, s);
    assert Slide([], st.capacity, s) == [s];
  }

  // ----- runs -----

  lemma ObserveKeepsValid(best: Estimator, st: State, s: Sample)
    requires st.Valid(best)
    ensures Observe(best, st, s).0.Valid(best)
  {
  }

  ghost function After(best: Estimator, st: State, obs: seq<Sample>): State
    decreases |obs|
  {
    if obs == [] then st else After(best, Observe(best, st, obs[0]).0, obs[1..])
  }

  /** What each observation of a run did. */
  ghost function Outcomes(best: Estimator, st: State, obs: seq<Sample>): (r: seq<Outcome>)
    ensures |r| == |obs|
    decreases |obs|
  {
    if obs == [] then [] else [Observe(best, st, obs[0]).1] + Outcomes(best, Observe(best, st, obs[0]).0, obs[1..])
  }

  /** The counters that decide between folding, rejecting and restarting. */
  datatype Size = Size(window: nat, rejects: nat, capacity: nat)

  ghost function SizeOf(st: State): Size {
    Size(|st.samples|, st.rejects, st.capacity)
  }

  ghost function Sizes(best: Estimator, st: State, obs: seq<Sample>): (r: seq<Size>)
    ensures |r| == |obs| + 1
    decreases |obs|
  {
    [SizeOf(st)] + if obs == [] then [] else Sizes(best, Observe(best, st, obs[0]).0, obs[1..])
  }

  /** What each outcome says about the counters before and after. */
  ghost predicate Moves(a: Size, b: Size, o: Outcome) {
    && a.capacity == b.capacity >= 2 && a.window <= a.capacity && b.window <= b.capacity
    && a.rejects < MAX_CONSECUTIVE_REJECTS && b.rejects < MAX_CONSECUTIVE_REJECTS
    && match o
       case Rejected => a.window >= MIN_SAMPLES_TO_GATE && b == a.(rejects := a.rejects + 1)
       case Folded => b.rejects == 0 && b.window == if a.window < a.capacity then a.window + 1 else a.window
       case Restarted =>
         a.window >= MIN_SAMPLES_TO_GATE && a.rejects == MAX_CONSECUTIVE_REJECTS - 1 && b == Size(1, 0, a.capacity)
  }

  lemma ObserveMoves(best: Estimator, st: State, s: Sample)
    requires st.Valid(best)
    ensures Moves(SizeOf(st), SizeOf(Observe(best, st, s).0), Observe(best, st, s).1)
  {
  }

  ghost predicate IsTrace(sizes: seq<Size>, outs: seq<Outcome>) {
    && |sizes| == |outs| + 1
    && forall i :: 0 <= i < |outs| ==> Moves(sizes[i], sizes[i + 1], outs[i])
  }

  lemma {:induction false} RunsAreTraces(best: Estimator, st: State, obs: seq<Sample>)
    requires st.Valid(best)
    ensures IsTrace(Sizes(best, st, obs), Outcomes(best, st, obs))
    decreases |obs|
  {
    if obs != [] {
      var next := Observe(best, st, obs[0]).0;
      ObserveKeepsValid(best, st, obs[0]);
      ObserveMoves(best, st, obs[0]);
      RunsAreTraces(best, next, obs[1..]);
      TraceCons(SizeOf(st), Observe(best, st, obs[0]).1, Sizes(best, next, obs[1..]), Outcomes(best, next, obs[1..]));
    }
  }

  lemma TraceCons(a: Size, o: Outcome, sizes: seq<Size>, outs: seq<Outcome>)
    requires IsTrace(sizes, outs) && Moves(a, sizes[0], o)
    ensures IsTrace([a] + sizes, [o] + outs)
  {
    var ss, os := [a] + sizes, [o] + outs;
    forall i | 0 <= i < |os| ensures Moves(ss[i], ss[i + 1], os[i]) {
      if i > 0 {
        assert Moves(sizes[i - 1], sizes[(i - 1) + 1], outs[i - 1]);
      }
    }
  }

  lemma RejectionKeepsTheFit(best: Estimator, st: State, s: Sample)
    requires st.Valid(best) && Observe(best, st, s).1 == Rejected
    ensures Observe(best, st, s).0.samples == st.samples && Observe(best, st, s).0.fit == st.fit
  {
  }

  lemma {:induction false} RejectsCount(sizes: seq<Size>, outs: seq<Outcome>, i: nat, n: nat)
    requires IsTrace(sizes, outs) && i + n <= |outs|
    requires forall j :: i <= j < i + n ==> outs[j] == Rejected
    ensures n <= sizes[i + n].rejects && n < MAX_CONSECUTIVE_REJECTS
  {
    if n > 0 {
      RejectsCount(sizes, outs, i, n - 1);
      assert Moves(sizes[i + n - 1], sizes[(i + n - 1) + 1], outs[i + n - 1]);
    }
  }

  /** At most seven rejections happen in a row. */
  lemma NoEightRejections(best: Estimator, st: State, obs: seq<Sample>, i: nat)
    requires st.Valid(best) && i + MAX_CONSECUTIVE_REJECTS <= |obs|
    ensures exists j :: i <= j < i + MAX_CONSECUTIVE_REJECTS && Outcomes(best, st, obs)[j] != Rejected
  {
    RunsAreTraces(best, st, obs);
    var outs := Outcomes(best, st, obs);
    if forall j :: i <= j < i + MAX_CONSECUTIVE_REJECTS ==> outs[j] == Rejected {
      RejectsCount(Sizes(best, st, obs), outs, i, MAX_CONSECUTIVE_REJECTS);
      assert false;
    }
  }

  lemma {:induction false} WindowStaysWithinCapacity(best: Estimator, st: State, obs: seq<Sample>)
    requires st.Valid(best)
    ensures After(best, st, obs).Valid(best) && After(best, st, obs).capacity == st.capacity
    ensures |After(best, st, obs).samples| <= st.capacity
    decreases |obs|
  {
    if obs != [] {
      ObserveKeepsValid(best, st, obs[0]);
      WindowStaysWithinCapacity(best, Observe(best, st, obs[0]).0, obs[1..]);
    }
  }

  /** The fewest observations, this one included, before these counters restart. */
  ghost function Patience(z: Size): int {
    (if z.window < MIN_SAMPLES_TO_GATE then MIN_SAMPLES_TO_GATE - z.window else 0)
    + (MAX_CONSECUTIVE_REJECTS - z.rejects)
  }

  lemma {:induction false} PatienceAfterRestart(sizes: seq<Size>, outs: seq<Outcome>, a: nat, n: nat)
    requires IsTrace(sizes, outs) && a + 1 + n <= |outs| && outs[a] == Restarted
    requires forall j :: a < j < a + 1 + n ==> outs[j] != Restarted
    ensures Patience(sizes[a + 1 + n]) >= 15 - n
  {
    if n == 0 {
      assert Moves(sizes[a], sizes[a + 1], outs[a]);
    } else {
      PatienceAfterRestart(sizes, outs, a, n - 1);
      assert Moves(sizes[a + n], sizes[(a + n) + 1], outs[a + n]);
    }
  }

  lemma {:induction false} RestartsAreFarInTrace(sizes: seq<Size>, outs: seq<Outcome>, a: nat, b: nat)
    requires IsTrace(sizes, outs) && a < b < |outs| && outs[a] == Restarted && outs[b] == Restarted
    ensures b - a >= 15
    decreases b - a
  {
    if j :| a < j < b && outs[j] == Restarted {
      RestartsAreFarInTrace(sizes, outs, a, j);
    } else {
      PatienceAfterRestart(sizes, outs, a, b - a - 1);
      assert Moves(sizes[b], sizes[b + 1], outs[b]);
    }
  }

  /** Two restarts are at least fifteen observations apart. */
  lemma RestartsAreFar(best: Estimator, st: State, obs: seq<Sample>, a: nat, b: nat)
    requires st.Valid(best) && a < b < |obs|
    requires Outcomes(best, st, obs)[a] == Restarted && Outcomes(best, st, obs)[b] == Restarted
    ensures b - a >= 15
  {
    RunsAreTraces(best, st, obs);
    RestartsAreFarInTrace(Sizes(best, st, obs), Outcomes(best, st, obs), a, b);
  }

  lemma {:induction false} FoldsAfterRestart(sizes: seq<Size>, outs: seq<Outcome>, a: nat, n: nat)
    requires IsTrace(sizes, outs) && a + 1 + n <= |outs| && outs[a] == Restarted && n <= 7
    ensures sizes[a + 1 + n].window <= n + 1
    ensures forall j :: a < j < a + 1 + n ==> outs[j] == Folded
  {
    if n == 0 {
      assert Moves(sizes[a], sizes[a + 1], outs[a]);
    } else {
      FoldsAfterRestart(sizes, outs, a, n - 1);
      assert Moves(sizes[a + n], sizes[(a + n) + 1], outs[a + n]);
    }
  }

  /** The seven observations after a restart are folded, whatever they are. */
  lemma RestartIsFollowedByFolds(best: Estimator, st: State, obs: seq<Sample>, a: nat, j: nat)
    requires st.Valid(best) && a < j < |obs| && j <= a + 7 && Outcomes(best, st, obs)[a] == Restarted
    ensures Outcomes(best, st, obs)[j] == Folded
  {
    RunsAreTraces(best, st, obs);
    FoldsAfterRestart(Sizes(best, st, obs), Outcomes(best, st, obs), a, j - a);
  }

  // ----- a common line -----

  ghost predicate Increasing(obs: seq<Sample>) {
    forall i, j :: 0 <= i < j < |obs| ==> obs[i].local < obs[j].local
  }

  /** `w` is the newest stretch of what was seen, with at least two samples once two
      were seen. */
  ghost predicate NewestOf(w: seq<Sample>, seen: seq<Sample>) {
    |w| <= |seen| && w == seen[|seen| - |w|..] && (|seen| >= 2 ==> |w| >= 2) && (seen != [] ==> w != [])
  }

  /** An estimator that recovers a line from any two or more samples on it. */
  ghost predicate RecoversLine(best: Estimator, c: real, m: real) {
    forall w: seq<Sample>, l: nat :: |w| >= 2 && OnLine(w, c, m) && Increasing(w) ==> Project(best(w), l) == c + m * l as real
  }

  lemma BestRecoversLine(c: real, m: real)
    ensures RecoversLine(Best, c, m)
  {
    forall w: seq<Sample>, l: nat | |w| >= 2 && OnLine(w, c, m) && Increasing(w)
      ensures Project(Best(w), l) == c + m * l as real
    {
      LineIsRecovered(w, c, m, 0, 1);
    }
  }

  lemma NewestOnLine(w: seq<Sample>, seen: seq<Sample>, c: real, m: real)
    requires NewestOf(w, seen) && OnLine(seen, c, m) && Increasing(seen)
    ensures OnLine(w, c, m) && Increasing(w)
  {
    var k := |seen| - |w|;
    forall i | 0 <= i < |w| ensures w[i] == seen[k + i] {
    }
  }

  lemma WithinGate(fit: Fit, s: Sample, c: real, m: real, gate: nat)
    requires Project(fit, s.local) == c + m * s.local as real && s.master as real == c + m * s.local as real
    ensures Abs(s.master as real - Project(fit, s.local)) <= gate as real
  {
  }

  lemma OnLineIsFolded(best: Estimator, st: State, seen: seq<Sample>, s: Sample, c: real, m: real)
    requires RecoversLine(best, c, m) && st.Valid(best) && NewestOf(st.samples, seen)
    requires OnLine(seen, c, m) && Increasing(seen) && s.master as real == c + m * s.local as real
    ensures Observe(best, st, s).1 == Folded
    ensures Observe(best, st, s).0.samples == Slide(st.samples, st.capacity, s)
  {
    if |st.samples| >= MIN_SAMPLES_TO_GATE {
      NewestOnLine(st.samples, seen, c, m);
      WithinGate(st.fit.value, s, c, m, st.gate);
    }
  }

  lemma SlideKeepsNewest(w: seq<Sample>, seen: seq<Sample>, capacity: nat, s: Sample)
    requires NewestOf(w, seen) && capacity >= 2 && |w| <= capacity
    ensures NewestOf(Slide(w, capacity, s), seen + [s])
  {
    if w != [] && |w| == capacity {
      FullSlide(w, seen, s);
    } else {
      SuffixSnoc(seen, |seen| - |w|, s);
    }
  }

  /** A full window gives up its oldest sample. */
  lemma FullSlide(w: seq<Sample>, seen: seq<Sample>, s: Sample)
    requires 0 < |w| <= |seen| && w == seen[|seen| - |w|..]
    ensures w[1..] + [s] == (seen + [s])[|seen| + 1 - |w|..]
  {
    SuffixTail(seen, |seen| - |w|);
    SuffixSnoc(seen, |seen| - |w| + 1, s);
  }

  lemma SuffixTail(seen: seq<Sample>, k: nat)
    requires k < |seen|
    ensures seen[k..][1..] == seen[k + 1..]
  {
  }

  lemma SuffixSnoc(seen: seq<Sample>, k: nat, s: Sample)
    requires k <= |seen|
    ensures seen[k..] + [s] == (seen + [s])[k..]
  {
  }

  lemma {:induction false} LineRun(best: Estimator, st: State, seen: seq<Sample>, obs: seq<Sample>, c: real, m: real)
    requires RecoversLine(best, c, m) && st.Valid(best) && NewestOf(st.samples, seen)
    requires OnLine(seen + obs, c, m) && Increasing(seen + obs)
    ensures AllFolded(Outcomes(best, st, obs))
    ensures NewestOf(After(best, st, obs).samples, seen + obs)
    decreases |obs|
  {
    if obs == [] {
      assert seen + obs == seen;
    } else {
      var s := obs[0];
      SplitLine(seen, obs, c, m);
      OnLineIsFolded(best, st, seen, s, c, m);
      SlideKeepsNewest(st.samples, seen, st.capacity, s);
      ObserveKeepsValid(best, st, s);
      MoveOne(seen, obs);
      LineRun(best, Observe(best, st, s).0, seen + [s], obs[1..], c, m);
      RunStep(best, st, obs);
      FoldedFirst(Outcomes(best, Observe(best, st, s).0, obs[1..]));
    }
  }

  ghost predicate AllFolded(outcomes: seq<Outcome>) {
    forall i :: 0 <= i < |outcomes| ==> outcomes[i] == Folded
  }

  lemma FoldedFirst(outcomes: seq<Outcome>)
    requires AllFolded(outcomes)
    ensures AllFolded([Folded] + outcomes)
  {
  }

  lemma MoveOne(seen: seq<Sample>, obs: seq<Sample>)
    requires obs != []
    ensures seen + [obs[0]] + obs[1..] == seen + obs
  {
  }

  lemma RunStep(best: Estimator, st: State, obs: seq<Sample>)
    requires obs != []
    ensures Outcomes(best, st, obs) == [Observe(best, st, obs[0]).1] + Outcomes(best, Observe(best, st, obs[0]).0, obs[1..])
    ensures After(best, st, obs) == After(best, Observe(best, st, obs[0]).0, obs[1..])
  {
  }

  lemma SplitLine(seen: seq<Sample>, obs: seq<Sample>, c: real, m: real)
    requires obs != [] && OnLine(seen + obs, c, m) && Increasing(seen + obs)
    ensures OnLine(seen, c, m) && Increasing(seen)
    ensures obs[0].master as real == c + m * obs[0].local as real
  {
    var all := seen + obs;
    assert forall i :: 0 <= i < |seen| ==> seen[i] == all[i];
    assert obs[0] == all[|seen|];
  }

  /** Samples on one line with increasing local times are never rejected or
      restarted, and from the second on the clock reads that line. */
  lemma LineIsReproduced(window: nat, gate: nat, obs: seq<Sample>, c: real, m: real)
    requires OnLine(obs, c, m) && Increasing(obs)
    ensures forall i :: 0 <= i < |obs| ==> Outcomes(Best, Start(window, gate), obs)[i] == Folded
    ensures |obs| >= 2 ==>
              forall l: nat :: ReadAt(Best, After(Best, Start(window, gate), obs), l) == ToU64(c + m * l as real)
  {
    BestRecoversLine(c, m);
    LineIsReproducedBy(Best, window, gate, obs, c, m);
  }

  lemma LineIsReproducedBy(best: Estimator, window: nat, gate: nat, obs: seq<Sample>, c: real, m: real)
    requires RecoversLine(best, c, m) && OnLine(obs, c, m) && Increasing(obs)
    ensures forall i :: 0 <= i < |obs| ==> Outcomes(best, Start(window, gate), obs)[i] == Folded
    ensures |obs| >= 2 ==>
              forall l: nat :: ReadAt(best, After(best, Start(window, gate), obs), l) == ToU64(c + m * l as real)
  {
    assert [] + obs == obs;
    LineRun(best, Start(window, gate), [], obs, c, m);
    if |obs| >= 2 {
      NewestOnLine(After(best, Start(window, gate), obs).samples, obs, c, m);
    }
  }
}
