/** Octets as bit vectors, for XOR, and as numbers, for arithmetic. */
module Bytes {

  type byte = bv8

  function Number(b: byte): (n: nat)
    ensures n < 256
  {
    b as int
  }

  lemma Next(b: byte)
    requires b != 255
    ensures Number(b + 1) == Number(b) + 1
  {
  }

  lemma Bounds(b: byte)
    ensures Number(0) == 0
    ensures Number(b) < 255 ==> b != 255
  {
  }

  /** Counting from 0 reaches every number below 256. */
  ghost function CountUp(n: nat): (b: byte)
    requires n < 256
    ensures Number(b) == n
  {
    Bounds(0);
    if n == 0 then 0
    else
      Bounds(CountUp(n - 1));
      Next(CountUp(n - 1));
      CountUp(n - 1) + 1
  }

  lemma CastBack(b: byte)
    ensures Number(b) as byte == b
  {
  }

  /** The octet with number `n`. */
  function Octet(n: nat): (b: byte)
    requires n < 256
    ensures Number(b) == n
  {
    CastBack(CountUp(n));
    n as byte
  }

  lemma SameNumber(a: byte, b: byte)
    ensures Number(a) == Number(b) <==> a == b
  {
  }
}
