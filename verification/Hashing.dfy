/** Keccak-256 as an arbitrary function from byte strings to 32 bytes.

    Every definition takes the hash function as a parameter, so each theorem holds of
    all of them. None is injective; a theorem that needs injectivity instead names,
    with a function of its inputs, the two strings that break the hash. */
module Hashing {
  import opened Bytes

  type Hash = Bytes -> Bytes32

  function Keccak(k: Hash, b: Bytes): Bytes32
  {
    k(b)
  }

  /** What an attacker must have found when two different inputs are confused. */
  datatype Break =
    | Collision(x: Bytes, y: Bytes)
    | ZeroPreimage(x: Bytes)

  predicate Breaks(k: Hash, b: Break)
  {
    match b
    case Collision(x, y) => x != y && Keccak(k, x) == Keccak(k, y)
    case ZeroPreimage(x) => Keccak(k, x) == ZERO32
  }
}
