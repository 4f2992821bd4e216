/** Fixed-width integers and identifiers shared by every module. */
module Types {
  const TWO_16: nat := 0x1_0000
  const TWO_32: nat := 0x1_0000_0000
  const TWO_64: nat := 0x1_0000_0000_0000_0000
  const TWO_128: nat := 0x1_0000_0000_0000_0000_0000_0000_0000_0000
  const TWO_256: nat := TWO_128 * TWO_128

  const U64_MAX: nat := TWO_64 - 1
  const U128_MAX: nat := TWO_128 - 1

  newtype byte = x: int | 0 <= x < 256
  type u32 = x: nat | x < TWO_32
  type u64 = x: nat | x < TWO_64
  type u128 = x: nat | x < TWO_128

  /** A block id is a 32-byte digest. It is held as the integer those bytes spell
      in big-endian order, so comparing ids as numbers is comparing their bytes. */
  newtype BlockId = x: int | 0 <= x < TWO_256

  /** Strictly ascending: sorted, without repetition. */
  ghost predicate Ascending(s: seq<BlockId>) {
    forall i, j :: 0 <= i < j < |s| ==> s[i] < s[j]
  }

  datatype Option<+T> = None | Some(value: T)

  datatype Result<+T, +E> = Ok(value: T) | Err(error: E)

  function Min(a: int, b: int): int {
    if a < b then a else b
  }

  function Max(a: int, b: int): int {
    if a < b then b else a
  }

  /** `saturating_add` and friends on an unsigned word whose largest value is `top`. */
  function SatAdd(a: nat, b: nat, top: nat): nat {
    Min(a + b, top)
  }

  function SatMul(a: nat, b: nat, top: nat): nat {
    Min(a * b, top)
  }

  function SatSub(a: nat, b: nat): nat {
    if a < b then 0 else a - b
  }
}
