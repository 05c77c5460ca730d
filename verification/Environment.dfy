/** Definitions shared by the component models: machine numbers, optional values and the one rule
    every resource allocator in the environment (descriptor numbers, D-Bus registration ids)
    obeys. */
module Environment {

  const U32_MODULUS := 0x1_0000_0000
  const USIZE_MODULUS := 0x1_0000_0000_0000_0000
  const USIZE_MAX := USIZE_MODULUS - 1

  type byte = x: int | 0 <= x < 0x100
  type u32 = x: int | 0 <= x < U32_MODULUS
  type usize = x: int | 0 <= x < USIZE_MODULUS

  datatype Option<+T> = None | Some(value: T)

  function Zeros(n: nat): (z: seq<byte>)
    ensures |z| == n && forall i :: 0 <= i < n ==> z[i] == 0
  {
    seq(n, _ => 0)
  }

  /** A number the environment picks outside `taken`; `hint` is its free choice, and every
      number outside `taken` can be obtained by choosing it as the hint. */
  function Unused(taken: set<int>, hint: nat): (n: nat)
    ensures n !in taken
    ensures hint <= n
    ensures hint !in taken ==> n == hint
    decreases |taken|
  {
    if hint !in taken then hint else Unused(taken - {hint}, hint + 1)
  }
}
