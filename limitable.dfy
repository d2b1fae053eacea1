/** The rate limiter's helper that turns a quota count into a non-zero `u32`. */
module Limitable {
  import opened Wrappers

  const U32_MAX: nat := 0xFFFF_FFFF

  type U32 = n: int | 0 <= n <= U32_MAX

  type NonZeroU32 = n: int | 1 <= n <= U32_MAX witness 1

  /** `NonZeroU32::new`: nothing for 0. */
  function NewNonZeroU32(i: U32): (r: Option<NonZeroU32>)
    ensures r.Some? <==> i != 0
    ensures r.Some? ==> r.value == i
  {
    if i == 0 then None else Some(i)
  }

  /** `non_zero`: `NonZeroU32::new(i).unwrap_or(1)`. */
  function NonZero(i: U32): NonZeroU32 {
    NewNonZeroU32(i).GetOr(1)
  }

  /**
   * The clamp keeps every non-zero count, sends 0 to 1, always lands in
   * 1 .. 2^32 - 1, and applying it again changes nothing.
   */
  lemma NonZeroSpec(i: U32)
    ensures i != 0 ==> NonZero(i) == i
    ensures i == 0 ==> NonZero(i) == 1
    ensures 1 <= NonZero(i) <= U32_MAX
    ensures NonZero(NonZero(i)) == NonZero(i)
  {
  }
}
