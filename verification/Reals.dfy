/** The lesser and the greater of two real numbers. */
module Reals {
  function Min(a: real, b: real): real {
    if a < b then a else b
  }

  function Max(a: real, b: real): real {
    if a < b then b else a
  }
}
