/** The numbers several formats share. */
module Numbers {
  type byte = x: nat | x < 256

  /** 2^54 - 1: the largest number a fixed-precision field and an asset output can hold. */
  const MAX_COUNT: nat := 18014398509481983
}
