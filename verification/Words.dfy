/** Fixed-width words of the C and C++ sources, as ranges of the integers. */
module Words {
  const TWO16 := 0x1_0000
  const TWO32 := 0x1_0000_0000

  type u8 = x: int | 0 <= x < 0x100
  type u16 = x: int | 0 <= x < 0x1_0000
  type u32 = x: int | 0 <= x < 0x1_0000_0000

  datatype Option<+T> = None | Some(value: T)

  /** `later - earlier` on uint32_t, which wraps. */
  function Elapsed32(later: u32, earlier: u32): (r: u32)
  {
    (later - earlier) % TWO32
  }

  /** The uint32_t reading of an unbounded clock. */
  function Clock32(t: nat): (r: u32)
  {
    t % TWO32
  }

  /** A wrapped difference never overstates the true one, and is exact below one full period. */
  lemma ElapsedOfClocks(later: nat, earlier: nat)
    requires earlier <= later
    ensures Elapsed32(Clock32(later), Clock32(earlier)) == (later - earlier) % TWO32
    ensures Elapsed32(Clock32(later), Clock32(earlier)) <= later - earlier
    ensures later - earlier < TWO32 ==> Elapsed32(Clock32(later), Clock32(earlier)) == later - earlier
  {
    var d := later - earlier;
    var a, b := later / TWO32, earlier / TWO32;
    assert Clock32(later) - Clock32(earlier) == d - (a - b) * TWO32;
    ModShift(d, a - b);
  }

  lemma {:induction false} ModShift(d: int, k: int)
    ensures (d - k * TWO32) % TWO32 == d % TWO32
    decreases if k < 0 then -k else k
  {
    if k > 0 {
      ModShift(d - TWO32, k - 1);
    } else if k < 0 {
      ModShift(d + TWO32, k + 1);
    }
  }
}
