/** Scalar values as the analysis sees them: numpy floats, which may be
    finite or one of the non-finite IEEE values rejected by `np.isfinite`. */
module Measures {

  datatype Option<T> = None | Some(value: T)

  /** A float measure.  Only `Finite` passes `np.isfinite`. */
  datatype Measure = Finite(value: real) | NaN | PosInf | NegInf

  /** The number a measure stands for once the scorer has replaced every
      non-finite entry by 0. */
  function ValueOrZero(m: Measure): real
  {
    if m.Finite? then m.value else 0.0
  }
}
