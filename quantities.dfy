/** Power and energy quantities (kW, kWh) are reals; timestamps are integer
    seconds. */
module Quantities {

  /** One hour, the step of the forecast timestamps. */
  const HOUR: int := 3600

  /** Python's two-argument `min`: the first argument unless the second is
      strictly smaller. */
  function Min(a: real, b: real): real {
    if b < a then b else a
  }

  /** The positive part of `x`: what a quantity contributes when only
      positive amounts are acted upon. */
  function Pos(x: real): real {
    if x > 0.0 then x else 0.0
  }
}
