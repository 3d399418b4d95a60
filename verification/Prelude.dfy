/** Types shared by every component. */
module Prelude {

  type byte = b: int | 0 <= b < 256

  type nibble = n: int | 0 <= n < 16

  type Bytes = seq<byte>

  datatype Option<+T> = None | Some(value: T)

  /** One more than the largest `usize` (and `u64`) of a 64-bit target. */
  const USIZE_LIMIT: nat := 0x1_0000_0000_0000_0000

  function Zeros(n: nat): (r: Bytes)
    ensures |r| == n
    ensures forall i | 0 <= i < n :: r[i] == 0
  {
    seq(n, i => 0)
  }

  lemma Fewer<X>(a: set<X>, b: set<X>)
    requires a <= b
    ensures |a| <= |b|
  {
    if a != b {
      assert b == a + (b - a);
    }
  }
}
