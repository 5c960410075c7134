/** Constants, arithmetic and wrappers used by several modules. */
module Basics {
  datatype Option<T> = None | Some(value: T)

  // errno values, which the sources return negated
  const EIO: int := 5
  const EAGAIN: int := 11
  const EACCES: int := 13
  const EINVAL: int := 22
  const ENOTSUP: int := 95
  const ENOMEDIUM: int := 123

  /** BDRV_SECTOR_SIZE */
  const SECTOR: nat := 512

  /** BDRV_SECTORS_PER_DIRTY_CHUNK */
  const CHUNK: nat := 2048

  /** Chunk c lies between the first and the last chunk of n sectors. */
  predicate Touches(sector: nat, n: nat, c: nat) {
    n > 0 && sector / CHUNK <= c <= (sector + n - 1) / CHUNK
  }

  function Min(a: int, b: int): int { if a < b then a else b }

  /** Division as C does it: the quotient is rounded towards zero. */
  function CDiv(a: int, b: nat): int
    requires b > 0
  {
    if a >= 0 then a / b else -((-a) / b)
  }

  /** Quotient and remainder are determined by their sum and the range of the remainder. */
  lemma DivIs(a: int, k: int, q: int, r: int)
    requires k > 0 && a == k * q + r && 0 <= r < k
    ensures a / k == q && a % k == r
  {
    var e := a / k - q;
    assert k * e == r - a % k;
    assert e > 0 ==> k * e >= k;
    assert e < 0 ==> k * e <= -k;
  }
}
