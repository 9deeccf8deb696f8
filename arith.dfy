/** The integer and real helpers the scroll arithmetic and the row geometry share. */
module Arith {

  /** `Math.max`, `Math.min` and `Math.abs` on integers. */
  function Max(a: int, b: int): int { if a < b then b else a }
  function Min(a: int, b: int): int { if a < b then a else b }
  function Abs(a: int): nat { if a < 0 then -a else a }

  /** `Math.max` on the real-valued geometry. */
  function MaxReal(a: real, b: real): real { if a < b then b else a }

}
