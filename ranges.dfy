/** `create_param_range` of Fig6/analysis.py and the `np.arange` grids it
    and the frequency inference are built on, over exact reals. */
module Ranges {
  import opened Measures

  /** The least integer not below `x`. */
  function Ceil(x: real): (c: int)
    ensures c as real - 1.0 < x <= c as real
  {
    -((-x).Floor)
  }

  /** `np.arange(start, stop, step)`: `start + k * step` for k from 0 while
      below `ceil((stop - start) / step)`; a zero step raises. */
  function Arange(start: real, stop: real, step: real): (r: Option<seq<real>>)
    ensures r.None? <==> step == 0.0
    ensures r.Some? ==> forall k :: 0 <= k < |r.value| ==> r.value[k] == start + k as real * step
  {
    if step == 0.0 then None
    else
      var c := Ceil((stop - start) / step);
      Some(seq(if c < 0 then 0 else c, k => start + k as real * step))
  }

  /** `create_param_range(x0, x1, res)` is `np.arange(x0, x1 + res, res)`. */
  function ParamRange(x0: real, x1: real, res: real): (r: Option<seq<real>>)
    ensures r.None? <==> res == 0.0
    ensures r.Some? ==> forall k :: 0 <= k < |r.value| ==> r.value[k] == x0 + k as real * res
  {
    Arange(x0, x1 + res, res)
  }

  /** Whether `q` is a whole number. */
  predicate IsWhole(q: real)
  {
    q.Floor as real == q
  }

  // ---------------------------------------------------------------------
  // Real arithmetic steps, kept apart so that each proof stays small
  // ---------------------------------------------------------------------

  lemma QuotientTimesDivisor(x: real, step: real)
    requires step != 0.0
    ensures (x / step) * step == x
  {
  }

  lemma ScaleStrict(u: real, v: real, step: real)
    requires u < v && step > 0.0
    ensures u * step < v * step
  {
  }

  lemma ScaleWeak(u: real, v: real, step: real)
    requires u <= v && step > 0.0
    ensures u * step <= v * step
  {
  }

  // ---------------------------------------------------------------------
  // Properties
  // ---------------------------------------------------------------------

  /** With a positive step the range is the longest progression from
      `start` with that step that stays strictly below `stop`: every entry
      is below it and the next one would not be. */
  lemma ArangeBelowStop(start: real, stop: real, step: real)
    requires step > 0.0
    ensures var v := Arange(start, stop, step).value;
      && (forall k :: 0 <= k < |v| ==> v[k] < stop)
      && stop <= start + |v| as real * step
  {
    var v := Arange(start, stop, step).value;
    var q := (stop - start) / step;
    QuotientTimesDivisor(stop - start, step);
    forall k | 0 <= k < |v|
      ensures v[k] < stop
    {
      ScaleStrict(k as real, q, step);
    }
    ScaleWeak(q, |v| as real, step);
  }

  /** Consecutive entries differ by the step; with a positive step none
      is below the start. */
  lemma ArangeSteps(start: real, stop: real, step: real)
    requires step > 0.0
    ensures var v := Arange(start, stop, step).value;
      && (forall k :: 0 <= k < |v| - 1 ==> v[k + 1] == v[k] + step)
      && (forall k :: 0 <= k < |v| ==> start <= v[k])
  {
    var v := Arange(start, stop, step).value;
    forall k | 0 <= k < |v|
      ensures start <= v[k]
    {
      ScaleWeak(0.0, k as real, step);
    }
    forall k | 0 <= k < |v| - 1
      ensures v[k + 1] == v[k] + step
    {
      Distribute(k as real, step);
    }
  }

  /** A parameter range with `x1 >= x0` is not empty and its last entry is
      at least `x1`. */
  lemma ParamRangeReachesUpper(x0: real, x1: real, res: real)
    requires res > 0.0 && x1 >= x0
    ensures var v := ParamRange(x0, x1, res).value;
      |v| >= 1 && x1 <= v[|v| - 1]
  {
    var v := ParamRange(x0, x1, res).value;
    var n := |v|;
    ArangeBelowStop(x0, x1 + res, res);
    assert n >= 1;
    Distribute((n - 1) as real, res);
  }

  /** With a positive step and `x1 >= x0` the parameter range starts at
      `x0`, climbs by `res`, stays below `x1 + res` and reaches `x1`: its
      last entry is at least `x1`. */
  lemma ParamRangeShape(x0: real, x1: real, res: real)
    requires res > 0.0 && x1 >= x0
    ensures ParamRange(x0, x1, res).Some?
    ensures var v := ParamRange(x0, x1, res).value;
      && |v| >= 1
      && v[0] == x0
      && (forall k :: 0 <= k < |v| - 1 ==> v[k + 1] == v[k] + res)
      && (forall k :: 0 <= k < |v| ==> x0 <= v[k] < x1 + res)
      && x1 <= v[|v| - 1]
  {
    ArangeBelowStop(x0, x1 + res, res);
    ArangeSteps(x0, x1 + res, res);
    ParamRangeReachesUpper(x0, x1, res);
  }

  lemma Distribute(u: real, step: real)
    ensures (u + 1.0) * step == u * step + step
  {
  }

  /** The upper bound `x1` is one of the parameters exactly when it lies a
      whole number of steps above `x0`. */
  lemma ParamRangeIncludesUpper(x0: real, x1: real, res: real)
    requires res > 0.0 && x1 >= x0
    ensures ParamRange(x0, x1, res).Some?
    ensures x1 in ParamRange(x0, x1, res).value <==> IsWhole((x1 - x0) / res)
  {
    if x1 in ParamRange(x0, x1, res).value {
      UpperIncludedOnlyWhole(x0, x1, res);
    }
    if IsWhole((x1 - x0) / res) {
      WholeUpperIncluded(x0, x1, res);
    }
  }

  lemma UpperIncludedOnlyWhole(x0: real, x1: real, res: real)
    requires res > 0.0
    requires x1 in ParamRange(x0, x1, res).value
    ensures IsWhole((x1 - x0) / res)
  {
    var v := ParamRange(x0, x1, res).value;
    var q := (x1 - x0) / res;
    var k :| 0 <= k < |v| && v[k] == x1;
    assert k as real * res == x1 - x0;
    assert q * res == x1 - x0 by {
      QuotientTimesDivisor(x1 - x0, res);
    }
    SameProductSameFactor(k as real, q, res, x1 - x0);
    assert q.Floor == k;
  }

  lemma WholeUpperIncluded(x0: real, x1: real, res: real)
    requires res > 0.0 && x1 >= x0
    requires IsWhole((x1 - x0) / res)
    ensures x1 in ParamRange(x0, x1, res).value
  {
    var v := ParamRange(x0, x1, res).value;
    var q := (x1 - x0) / res;
    var k := q.Floor;
    assert k >= 0 by {
      QuotientTimesDivisor(x1 - x0, res);
      ScaleWeak(0.0, q, res);
    }
    assert |v| == k + 1 by {
      QuotientIncrement(x1 - x0, res);
    }
    assert v[k] == x1 by {
      QuotientTimesDivisor(x1 - x0, res);
    }
  }

  lemma QuotientIncrement(x: real, step: real)
    requires step > 0.0
    ensures (x + step) / step == x / step + 1.0
  {
    QuotientTimesDivisor(x, step);
    QuotientTimesDivisor(x + step, step);
    Distribute(x / step, step);
    SameProductSameFactor((x + step) / step, x / step + 1.0, step, x + step);
  }

  lemma SameProductSameFactor(u: real, w: real, step: real, c: real)
    requires step > 0.0 && u * step == c && w * step == c
    ensures u == w
  {
    if u < w {
      ScaleStrict(u, w, step);
    } else if u > w {
      ScaleStrict(w, u, step);
    }
  }

  /** `create_param_range(0, 1, 0.5)` is `[0, 0.5, 1.0]`: the upper bound
      is included. */
  lemma ParamRangeExample()
    ensures ParamRange(0.0, 1.0, 0.5) == Some([0.0, 0.5, 1.0])
  {
    assert (1.0 + 0.5 - 0.0) / 0.5 == 3.0;
    assert Ceil(3.0) == 3;
    var v := ParamRange(0.0, 1.0, 0.5).value;
    assert |v| == 3;
    assert v[0] == 0.0 && v[1] == 0.5 && v[2] == 1.0;
    assert v == [0.0, 0.5, 1.0];
  }

  /** When `x1 - x0` is not a whole number of steps the last parameter
      overshoots `x1`: `create_param_range(0, 1, 0.3)` ends at 1.2. */
  lemma ParamRangeOvershootExample()
    ensures ParamRange(0.0, 1.0, 0.3) == Some([0.0, 0.3, 0.6, 0.9, 1.2])
  {
    assert (1.0 + 0.3 - 0.0) / 0.3 == 13.0 / 3.0;
    assert Ceil(13.0 / 3.0) == 5;
    var v := ParamRange(0.0, 1.0, 0.3).value;
    assert |v| == 5;
    assert v == [0.0, 0.3, 0.6, 0.9, 1.2];
  }
}
