/** The `clamp` template of win32_codex.cpp and the small min/max helpers the commands use. */
module Clamping {

  /**
   * `clamp(value, min, max)`: below `lo` gives `lo`, above `hi` gives `hi`, otherwise `value`.
   * The bounds are not required to be ordered; when `lo > hi` the lower test wins.
   */
  function Clamp(value: int, lo: int, hi: int): (r: int)
    ensures r == value || r == lo || r == hi
    ensures lo <= hi ==> lo <= r <= hi
    ensures lo <= value <= hi ==> r == value
    ensures value < lo ==> r == lo
    ensures lo <= value && hi < value ==> r == hi
  {
    if value < lo then lo else if value > hi then hi else value
  }

  function Min(a: int, b: int): (r: int)
    ensures r <= a && r <= b && (r == a || r == b)
  {
    if a <= b then a else b
  }

  function Max(a: int, b: int): (r: int)
    ensures a <= r && b <= r && (r == a || r == b)
  {
    if a >= b then a else b
  }
}
