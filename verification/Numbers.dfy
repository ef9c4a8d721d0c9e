/** 64-bit unsigned counters and their saturating addition. */
module Numbers {

  const U64_MAX: nat := 0xffff_ffff_ffff_ffff

  type U64 = n: nat | n <= U64_MAX

  function SatAdd(a: U64, b: nat): (r: U64)
    ensures r == if a + b <= U64_MAX then a + b else U64_MAX
  {
    if a + b <= U64_MAX then a + b else U64_MAX
  }

  function SatSub(a: U64, b: nat): U64 {
    if b <= a then a - b else 0
  }
}
