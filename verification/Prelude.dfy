/** Small datatypes and sequence facts shared by every module. */
module Prelude {

  datatype Option<+T> = None | Some(value: T)

  const U32: nat := 0x1_0000_0000

  /** One more, in 32-bit arithmetic. */
  function Inc32(n: nat): (r: nat)
    ensures r < U32 && (n < U32 - 1 ==> r == n + 1)
  {
    (n + 1) % U32
  }

  /** One of the two sequences is a prefix of the other. */
  ghost predicate Comparable<T>(s: seq<T>, t: seq<T>) {
    s <= t || t <= s
  }
}
