/** Units of time, in nanoseconds, and the lesser and greater of two numbers. */
module Numbers {

  const MILLISECOND: int := 1_000_000
  const SECOND: int := 1_000_000_000

  function Min(a: int, b: int): int {
    if a < b then a else b
  }

  function Max(a: int, b: int): int {
    if a < b then b else a
  }

  function MinReal(a: real, b: real): real {
    if a < b then a else b
  }
}
