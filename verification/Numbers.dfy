/** Small functions on numbers that several models share. */
module Numbers {

  function Max(x: real, y: real): real { if x >= y then x else y }

  function Pow10(n: nat): (r: nat)
    ensures r >= 1
  {
    if n == 0 then 1 else 10 * Pow10(n - 1)
  }
}
