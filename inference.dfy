/** `infer_amplitude` and the control skeleton of `infer_frequency` of
    Fig6/analysis.py.  The floating-point numerics (the Gaussian kernel
    sums, the normalisation and `scipy.signal.find_peaks`) are parameters;
    what is pinned down is the chain of steps around them and when the
    catch-all turns a raised exception into the NaN sentinel. */
module Inference {
  import opened Measures
  import opened Ranges

  // ---------------------------------------------------------------------
  // Amplitude
  // ---------------------------------------------------------------------

  /** `infer_amplitude`: the spike count stands in for the amplitude. */
  function InferAmplitude(spikes: seq<real>): (n: nat)
    ensures n == |spikes|
    ensures n == 0 <==> spikes == []
  {
    |spikes|
  }

  // ---------------------------------------------------------------------
  // numpy helpers
  // ---------------------------------------------------------------------

  /** `np.diff`: the gaps between consecutive entries. */
  function Diff(s: seq<real>): (d: seq<real>)
    ensures |d| == if |s| < 2 then 0 else |s| - 1
    ensures d == [] <==> |s| < 2
  {
    if |s| < 2 then [] else [s[1] - s[0]] + Diff(s[1..])
  }

  /** Gap k is the step from entry k to entry k + 1. */
  lemma {:induction false} DiffAt(s: seq<real>)
    ensures forall k :: 0 <= k < |Diff(s)| ==> Diff(s)[k] == s[k + 1] - s[k]
  {
    if |s| >= 2 {
      var rest := s[1..];
      DiffAt(rest);
      forall k | 0 <= k < |Diff(s)|
        ensures Diff(s)[k] == s[k + 1] - s[k]
      {
        if k > 0 {
          assert Diff(s)[k] == Diff(rest)[k - 1];
          assert rest[k] == s[k + 1] && rest[k - 1] == s[k];
        }
      }
    }
  }

  /** The running sums of `d` from `x0`: `x0, x0 + d[0], x0 + d[0] + d[1], ...`. */
  function Accumulate(x0: real, d: seq<real>): (s: seq<real>)
    ensures |s| == |d| + 1
    ensures s[0] == x0
    decreases |d|
  {
    if d == [] then [x0] else [x0] + Accumulate(x0 + d[0], d[1..])
  }

  /** Summing the gaps of a sequence back up from its first entry gives
      the sequence again: `np.diff` loses only the starting point. */
  lemma {:induction false} AccumulateDiff(s: seq<real>)
    requires |s| > 0
    ensures Accumulate(s[0], Diff(s)) == s
  {
    if |s| >= 2 {
      var rest, d := s[1..], Diff(s);
      AccumulateDiff(rest);
      assert d == [s[1] - s[0]] + Diff(rest);
      assert d[1..] == Diff(rest);
      assert s[0] + d[0] == rest[0];
      assert Accumulate(s[0], d) == [s[0]] + Accumulate(rest[0], Diff(rest));
      assert s == [s[0]] + rest;
    }
  }

  /** numpy's order for `np.argmax`: NaN above everything, then +inf, the
      finite values by size, and -inf at the bottom. */
  function Tier(m: Measure): int
  {
    match m
    case NegInf => 0
    case Finite(_) => 1
    case PosInf => 2
    case NaN => 3
  }

  /** `x` lies strictly above `y` in that order. */
  predicate Above(x: Measure, y: Measure)
  {
    Tier(x) > Tier(y) || (x.Finite? && y.Finite? && x.value > y.value)
  }

  /** A measure above `y` is above everything not above `y`. */
  lemma AboveThrough(x: Measure, y: Measure, z: Measure)
    requires Above(x, y) && !Above(z, y)
    ensures Above(x, z) && !Above(z, x)
  {
  }

  /** `np.argmax`: the first position of a greatest entry. */
  function ArgMax(s: seq<Measure>): (i: nat)
    requires |s| > 0
    ensures i < |s|
    ensures forall k :: 0 <= k < |s| ==> !Above(s[k], s[i])
    ensures forall k :: 0 <= k < i ==> Above(s[i], s[k])
  {
    if |s| == 1 then 0
    else
      var init, last := s[..|s| - 1], s[|s| - 1];
      var j := ArgMax(init);
      assert forall k :: 0 <= k < |init| ==> init[k] == s[k];
      if Above(last, s[j]) then
        assert forall k :: 0 <= k < |s| - 1 ==> Above(last, s[k]) && !Above(s[k], last) by {
          forall k | 0 <= k < |s| - 1
            ensures Above(last, s[k]) && !Above(s[k], last)
          {
            AboveThrough(last, s[j], s[k]);
          }
        }
        |s| - 1
      else
        j
  }

  // ---------------------------------------------------------------------
  // The frequency estimate
  // ---------------------------------------------------------------------

  /** The keyword arguments of `infer_frequency`. */
  datatype Params = Params(t1: real, t2: real, res: real, prom: real, timeStep: real)

  /** The numerical steps, left abstract.
      - `kernelSum(bins, centres, sig)`: the column sums of the stacked
        Gaussians of width `sig`, one per centre, evaluated on `bins`
        (only used with at least one centre: `np.vstack` of no rows raises);
      - `normalise(h)`: `h /= h.sum()`;
      - `findPeaks(h, prom)`: the peak indices `scipy.signal.find_peaks`
        reports at that prominence, or `None` when it raises. */
  datatype Numerics = Numerics(
    kernelSum: (seq<real>, seq<real>, real) -> seq<Measure>,
    normalise: seq<Measure> -> seq<Measure>,
    findPeaks: (seq<Measure>, real) -> Option<seq<nat>>)
  {
    /** The shapes the library calls guarantee: one kernel value per bin,
        normalising keeps the length, and peaks are positions of the
        signal they were found in. */
    ghost predicate WellBehaved()
    {
      && (forall bins, centres, sig :: |centres| > 0 ==> |kernelSum(bins, centres, sig)| == |bins|)
      && (forall h :: |normalise(h)| == |h|)
      && (forall h, prom :: findPeaks(h, prom).Some? ==>
            forall k :: 0 <= k < |findPeaks(h, prom).value| ==> findPeaks(h, prom).value[k] < |h|)
    }
  }

  /** `isi_bin = np.arange(0, 350, res)`. */
  function IsiBins(res: real): (bins: Option<seq<real>>)
    ensures bins.None? <==> res == 0.0
    ensures bins.Some? ==> forall k :: 0 <= k < |bins.value| ==> bins.value[k] == k as real * res
  {
    Arange(0.0, 350.0, res)
  }

  /** `pks`: the peaks of the normalised inter-spike-interval density, or
      `None` when a step up to `find_peaks` raised — a zero `res`, or no
      interval at all for `np.vstack` to stack. */
  function Peaks(spikes: seq<real>, p: Params, num: Numerics): (pks: Option<seq<nat>>)
    ensures p.res == 0.0 ==> pks.None?
    ensures |spikes| < 2 ==> pks.None?
  {
    match IsiBins(p.res)
    case None => None
    case Some(isiBin) =>
      var isi := Diff(spikes);
      if isi == [] then None
      else num.findPeaks(num.normalise(num.kernelSum(isiBin, isi, p.t1)), p.prom)
  }

  /** `np.diff(isi_bin[pks])`: the distances between consecutive peaks, or
      `None` when a peak index is outside `isi_bin`. */
  function PeakSpacings(isiBin: seq<real>, pks: seq<nat>): (d: Option<seq<real>>)
    ensures d.Some? <==> forall k :: 0 <= k < |pks| ==> pks[k] < |isiBin|
    ensures d.Some? ==> |d.value| == if |pks| < 2 then 0 else |pks| - 1
  {
    if exists k :: 0 <= k < |pks| && pks[k] >= |isiBin| then None
    else Some(Diff(seq(|pks|, k requires 0 <= k < |pks| => isiBin[pks[k]])))
  }

  /** `peak_loc_bins[np.argmax(peak_hist_g)]`: the lag bin at which the
      density of peak spacings is greatest, or `None` when a step raised. */
  function DominantLag(spacings: seq<real>, p: Params, num: Numerics): Option<real>
  {
    match Arange(0.0, 15.0, p.timeStep)
    case None => None
    case Some(bins) =>
      if spacings == [] then None
      else
        var density := num.kernelSum(bins, spacings, p.t2);
        if density == [] then None
        else
          var i := ArgMax(density);
          if i < |bins| then Some(bins[i]) else None
  }

  /** `infer_frequency`: 1000 over the dominant lag, or NaN when anything
      raised.  A lag of exactly 0 gives +inf: the division is on a numpy
      float and does not raise. */
  function InferFrequency(spikes: seq<real>, p: Params, num: Numerics): (f: Measure)
    ensures |spikes| < 2 ==> f == NaN
    ensures p.res == 0.0 || p.timeStep == 0.0 ==> f == NaN
    ensures f != NegInf
  {
    match Peaks(spikes, p, num)
    case None => NaN
    case Some(pks) =>
      match PeakSpacings(IsiBins(p.res).value, pks)
      case None => NaN
      case Some(spacings) =>
        match DominantLag(spacings, p, num)
        case None => NaN
        case Some(lag) =>
          if lag == 0.0 then PosInf else Finite(1000.0 / lag)
  }

  // ---------------------------------------------------------------------
  // Properties
  // ---------------------------------------------------------------------

  /** Fewer than two detected peaks leave no spacing to stack, so the
      estimate is the NaN sentinel, whatever the numerics. */
  lemma FewPeaksGiveNaN(spikes: seq<real>, p: Params, num: Numerics)
    requires Peaks(spikes, p, num).Some? && |Peaks(spikes, p, num).value| < 2
    ensures InferFrequency(spikes, p, num) == NaN
  {
  }

  /** Every lag bin lies in `[0, 15)`. */
  lemma DominantLagRange(spacings: seq<real>, p: Params, num: Numerics)
    requires DominantLag(spacings, p, num).Some?
    ensures 0.0 < p.timeStep
    ensures 0.0 <= DominantLag(spacings, p, num).value < 15.0
  {
    var bins := Arange(0.0, 15.0, p.timeStep).value;
    if p.timeStep < 0.0 {
      NegativeStepEmpty(p.timeStep);
    }
    ArangeBelowStop(0.0, 15.0, p.timeStep);
    ArangeSteps(0.0, 15.0, p.timeStep);
  }

  /** With a negative step the lag bins are empty. */
  lemma NegativeStepEmpty(step: real)
    requires step < 0.0
    ensures Arange(0.0, 15.0, step) == Some([])
  {
    assert 15.0 / step < 0.0 by {
      QuotientTimesDivisor(15.0, step);
    }
    assert Ceil(15.0 / step) <= 0;
    assert |Arange(0.0, 15.0, step).value| == 0;
  }

  /** With a positive step there is at least one lag bin. */
  lemma PositiveStepNonEmpty(step: real)
    requires step > 0.0
    ensures |Arange(0.0, 15.0, step).value| >= 1
  {
    assert 15.0 / step > 0.0 by {
      QuotientTimesDivisor(15.0, step);
    }
  }

  /** A finite estimate is 1000 over a lag in `(0, 15)`, so it is above
      1000/15 (about 66.7): the estimator cannot report lower frequencies. */
  lemma FrequencyFloor(spikes: seq<real>, p: Params, num: Numerics)
    ensures var f := InferFrequency(spikes, p, num);
      f.Finite? ==> f.value > 1000.0 / 15.0
  {
    var f := InferFrequency(spikes, p, num);
    if f.Finite? {
      var pks := Peaks(spikes, p, num).value;
      var spacings := PeakSpacings(IsiBins(p.res).value, pks).value;
      var lag := DominantLag(spacings, p, num).value;
      DominantLagRange(spacings, p, num);
      ReciprocalBelow(lag);
    }
  }

  lemma ReciprocalBelow(lag: real)
    requires 0.0 < lag < 15.0
    ensures 1000.0 / lag > 1000.0 / 15.0
  {
    QuotientTimesDivisor(1000.0, lag);
  }

  /** With library calls of the right shapes, the estimate is NaN exactly
      when `find_peaks` was never reached or raised, when it found fewer
      than two peaks, or when the lag step is not positive (zero raises in
      `np.arange`, a negative step leaves no bin for `np.argmax`). */
  lemma NaNExactlyWhen(spikes: seq<real>, p: Params, num: Numerics)
    requires num.WellBehaved()
    ensures InferFrequency(spikes, p, num) == NaN <==>
      || Peaks(spikes, p, num).None?
      || |Peaks(spikes, p, num).value| < 2
      || p.timeStep <= 0.0
  {
    var pks := Peaks(spikes, p, num);
    if pks.Some? {
      PeaksInRange(spikes, p, num);
      var spacings := PeakSpacings(IsiBins(p.res).value, pks.value).value;
      if p.timeStep < 0.0 {
        NegativeStepEmpty(p.timeStep);
      } else if p.timeStep > 0.0 && |pks.value| >= 2 {
        PositiveStepNonEmpty(p.timeStep);
        assert DominantLag(spacings, p, num).Some?;
      }
    }
  }

  /** With well-shaped library calls every peak indexes into `isi_bin`. */
  lemma PeaksInRange(spikes: seq<real>, p: Params, num: Numerics)
    requires num.WellBehaved()
    requires Peaks(spikes, p, num).Some?
    ensures PeakSpacings(IsiBins(p.res).value, Peaks(spikes, p, num).value).Some?
  {
    var isiBin := IsiBins(p.res).value;
    var h := num.normalise(num.kernelSum(isiBin, Diff(spikes), p.t1));
    assert |h| == |isiBin|;
  }
}
