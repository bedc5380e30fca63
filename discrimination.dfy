/** The discrimination scorer `discriminate` of Fig6/analysis.py: orient the
    two measure lists by their true values, sanitise them, label them and
    hand them to the ROC-AUC computation, which may raise. */
module Scorer {
  import opened Measures

  /** What the ROC-curve-plus-area library call does: return an area (a
      float, possibly NaN) or raise. */
  datatype AucOutcome = Area(area: Measure) | Raised

  /** The library's ROC-AUC of (labels, scores), label 1 being positive.
      It is left abstract: every property here holds whatever it is. */
  type Auc = (seq<int>, seq<real>) -> AucOutcome

  // ---------------------------------------------------------------------
  // Sanitisation:  d[~np.isfinite(d)] = 0  then  d[np.isfinite(d)]
  // ---------------------------------------------------------------------

  /** The array after the masked assignment `d[~np.isfinite(d)] = 0`. */
  function ZeroNonFinite(s: seq<Measure>): (r: seq<Measure>)
    ensures |r| == |s|
    ensures forall i :: 0 <= i < |r| ==> r[i].Finite?
    ensures forall i :: 0 <= i < |s| && s[i].Finite? ==> r[i] == s[i]
  {
    seq(|s|, i requires 0 <= i < |s| => if s[i].Finite? then s[i] else Finite(0.0))
  }

  /** `d[np.isfinite(d)].tolist()`: the values of the finite entries, in order. */
  function FiniteValues(s: seq<Measure>): (r: seq<real>)
    ensures |r| <= |s|
    ensures |r| == |s| <==> forall i :: 0 <= i < |s| ==> s[i].Finite?
    ensures forall x :: x in r ==> Finite(x) in s
  {
    if s == [] then []
    else
      var init, last := s[..|s| - 1], s[|s| - 1];
      assert forall i :: 0 <= i < |init| ==> init[i] == s[i];
      FiniteValues(init) + (if last.Finite? then [last.value] else [])
  }

  /** The filter works entry by entry: filtering a concatenation is
      filtering each part, in order. */
  lemma {:induction false} FiniteValuesAppend(s: seq<Measure>, t: seq<Measure>)
    ensures FiniteValues(s + t) == FiniteValues(s) + FiniteValues(t)
    decreases |t|
  {
    if t == [] {
      assert s + t == s;
    } else {
      var init, m := t[..|t| - 1], t[|t| - 1];
      assert t == init + [m];
      assert s + t == (s + init) + [m];
      FiniteValuesSnoc(s + init, m);
      FiniteValuesSnoc(init, m);
      FiniteValuesAppend(s, init);
    }
  }

  /** Appending one entry appends its value when it is finite. */
  lemma FiniteValuesSnoc(u: seq<Measure>, m: Measure)
    ensures FiniteValues(u + [m]) == FiniteValues(u) + (if m.Finite? then [m.value] else [])
  {
    assert (u + [m])[..|u|] == u;
  }

  /** Both sanitisation stages applied to one measure list. */
  function Sanitised(d: seq<Measure>): seq<real>
  {
    FiniteValues(ZeroNonFinite(d))
  }

  /** On a list whose entries are all finite the filter keeps every value. */
  lemma {:induction false} FiniteValuesKeepsAll(s: seq<Measure>)
    requires forall i :: 0 <= i < |s| ==> s[i].Finite?
    ensures |FiniteValues(s)| == |s|
    ensures forall i :: 0 <= i < |s| ==> FiniteValues(s)[i] == s[i].value
  {
    if s != [] {
      var init, m := s[..|s| - 1], s[|s| - 1];
      FiniteValuesKeepsAll(init);
      FiniteValuesSnoc(init, m);
      assert s == init + [m];
      var r, r0 := FiniteValues(s), FiniteValues(init);
      assert r == r0 + [m.value];
      forall i | 0 <= i < |s|
        ensures r[i] == s[i].value
      {
        if i < |init| {
          assert r[i] == r0[i] && init[i] == s[i];
        }
      }
    }
  }

  /** Sanitisation keeps the length and the order of the list: every
      non-finite entry becomes 0, every finite entry keeps its value, and
      the finiteness filter that follows removes nothing. */
  lemma SanitisedPointwise(d: seq<Measure>)
    ensures |Sanitised(d)| == |d|
    ensures forall i :: 0 <= i < |d| ==> Sanitised(d)[i] == ValueOrZero(d[i])
    ensures forall i :: 0 <= i < |d| ==> d[i].Finite? ==> Sanitised(d)[i] == d[i].value
    ensures forall i :: 0 <= i < |d| ==> !d[i].Finite? ==> Sanitised(d)[i] == 0.0
  {
    FiniteValuesKeepsAll(ZeroNonFinite(d));
  }

  /** `d[~np.isfinite(d)] = 0` on the numpy array. */
  method ZeroNonFiniteInPlace(a: array<Measure>)
    modifies a
    ensures a[..] == ZeroNonFinite(old(a[..]))
    ensures forall i :: 0 <= i < a.Length ==> a[i].Finite?
    ensures forall i :: 0 <= i < a.Length ==> old(a[i]).Finite? ==> a[i] == old(a[i])
    ensures forall i :: 0 <= i < a.Length ==> !old(a[i]).Finite? ==> a[i] == Finite(0.0)
  {
    for i := 0 to a.Length
      invariant forall k :: 0 <= k < i ==> a[k] == ZeroNonFinite(old(a[..]))[k]
      invariant forall k :: i <= k < a.Length ==> a[k] == old(a[k])
    {
      if !a[i].Finite? {
        a[i] := Finite(0.0);
      }
    }
  }

  /** `d[np.isfinite(d)].tolist()` on the numpy array. */
  method KeepFinite(a: array<Measure>) returns (r: seq<real>)
    ensures r == FiniteValues(a[..])
  {
    r := [];
    var i := 0;
    while i < a.Length
      invariant 0 <= i <= a.Length
      invariant r == FiniteValues(a[..i])
    {
      assert a[..i + 1][..i] == a[..i];
      if a[i].Finite? {
        r := r + [a[i].value];
      }
      i := i + 1;
    }
    assert a[..a.Length] == a[..];
  }

  /** Lines 78-80 (and 82-84) of the scorer: copy the list into an array,
      zero its non-finite entries in place, then filter on finiteness. */
  method Sanitise(d: seq<Measure>) returns (r: seq<real>)
    ensures r == Sanitised(d)
    ensures |r| == |d|
    ensures forall i :: 0 <= i < |d| ==> r[i] == ValueOrZero(d[i])
  {
    var a := new Measure[|d|](i requires 0 <= i < |d| => d[i]);
    assert a[..] == d;
    ZeroNonFiniteInPlace(a);
    r := KeepFinite(a);
    SanitisedPointwise(d);
  }

  // ---------------------------------------------------------------------
  // Orientation, labelling and the score
  // ---------------------------------------------------------------------

  /** The two lists after `if a > b: d1, d2 = d2, d1`: the list of the
      lower true value comes first (the first one on a tie). */
  function Canonical(d1: seq<Measure>, d2: seq<Measure>, a: real, b: real): (seq<Measure>, seq<Measure>)
  {
    if a > b then (d2, d1) else (d1, d2)
  }

  /** `[0] * n0 + [1] * n1` */
  function Labels(n0: nat, n1: nat): (r: seq<int>)
    ensures |r| == n0 + n1
    ensures forall i :: 0 <= i < |r| ==> (r[i] == 1 <==> n0 <= i) && (r[i] == 0 <==> i < n0)
  {
    seq(n0, _ => 0) + seq(n1, _ => 1)
  }

  /** The `(true_value, score)` pair handed to the ROC computation.  Both
      have one entry per measure of the two lists; the first list's
      entries come first and carry label 0, the second list's carry
      label 1, and every score is the sanitised measure at that place. */
  function RocInput(d1: seq<Measure>, d2: seq<Measure>, a: real, b: real): (input: (seq<int>, seq<real>))
    ensures var (lo, hi) := Canonical(d1, d2, a, b);
      && |input.0| == |lo| + |hi|
      && |input.1| == |lo| + |hi|
      && (forall i :: 0 <= i < |input.0| ==> input.0[i] == (if i < |lo| then 0 else 1))
      && (forall i :: 0 <= i < |lo| ==> input.1[i] == ValueOrZero(lo[i]))
      && (forall i :: 0 <= i < |hi| ==> input.1[|lo| + i] == ValueOrZero(hi[i]))
  {
    var (lo, hi) := Canonical(d1, d2, a, b);
    SanitisedPointwise(lo);
    SanitisedPointwise(hi);
    var s1, s2 := Sanitised(lo), Sanitised(hi);
    (Labels(|s1|, |s2|), s1 + s2)
  }

  /** The value `discriminate(d1, d2, a, b)` returns: the library's area,
      or 0 when the library raises. */
  function Discrimination(auc: Auc, d1: seq<Measure>, d2: seq<Measure>, a: real, b: real): Measure
  {
    var (labels, scores) := RocInput(d1, d2, a, b);
    match auc(labels, scores)
    case Area(v) => v
    case Raised => Finite(0.0)
  }

  /** `discriminate` itself: rebinds the lists on a swap, sanitises both
      through numpy arrays, builds labels and scores, and catches any
      exception of the ROC-AUC call.  It never raises. */
  method Discriminate(auc: Auc, d1: seq<Measure>, d2: seq<Measure>, a: real, b: real) returns (r: Measure)
    ensures r == Discrimination(auc, d1, d2, a, b)
  {
    var first, second := d1, d2;
    if a > b {
      first, second := d2, d1;
    }
    var s1 := Sanitise(first);
    var s2 := Sanitise(second);
    var score := s1 + s2;
    var trueValue := Labels(|s1|, |s2|);
    var outcome := auc(trueValue, score);
    match outcome
    case Area(v) =>
      r := v;
    case Raised =>
      r := Finite(0.0);
  }

  // ---------------------------------------------------------------------
  // Properties
  // ---------------------------------------------------------------------

  /** For distinct true values the argument order does not matter: the
      larger true value always ends up second. */
  lemma DiscriminationSymmetric(auc: Auc, d1: seq<Measure>, d2: seq<Measure>, a: real, b: real)
    requires a != b
    ensures Discrimination(auc, d1, d2, a, b) == Discrimination(auc, d2, d1, b, a)
  {
    assert Canonical(d1, d2, a, b) == Canonical(d2, d1, b, a);
  }

  /** Non-finite measures are treated exactly as 0 rather than dropped:
      lists that agree once non-finite entries read as 0 score the same. */
  lemma NonFiniteActsAsZero(auc: Auc, d1: seq<Measure>, d2: seq<Measure>, e1: seq<Measure>, e2: seq<Measure>, a: real, b: real)
    requires |d1| == |e1| && |d2| == |e2|
    requires forall i :: 0 <= i < |d1| ==> ValueOrZero(d1[i]) == ValueOrZero(e1[i])
    requires forall i :: 0 <= i < |d2| ==> ValueOrZero(d2[i]) == ValueOrZero(e2[i])
    ensures Discrimination(auc, d1, d2, a, b) == Discrimination(auc, e1, e2, a, b)
  {
    SanitisedPointwise(d1);
    SanitisedPointwise(d2);
    SanitisedPointwise(e1);
    SanitisedPointwise(e2);
    assert Sanitised(d1) == Sanitised(e1);
    assert Sanitised(d2) == Sanitised(e2);
  }

  /** `discriminate([nan], [5], 0, 1)` behaves as `discriminate([0], [5], 0, 1)`. */
  lemma NaNScoresAsZero(auc: Auc)
    ensures Discrimination(auc, [NaN], [Finite(5.0)], 0.0, 1.0)
         == Discrimination(auc, [Finite(0.0)], [Finite(5.0)], 0.0, 1.0)
  {
    NonFiniteActsAsZero(auc, [NaN], [Finite(5.0)], [Finite(0.0)], [Finite(5.0)], 0.0, 1.0);
  }
}
