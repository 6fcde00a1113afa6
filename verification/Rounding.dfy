/** The page rounding macros of kernel/src/mem/mem.h and kernel/src/mem/vmm.c.

    PAGE_SIZE is 4096u, so ~(PAGE_SIZE - 1) is the 32-bit mask 0xFFFFF000 and, widened
    to 64 bits, it also clears the upper half of the address. */
module Rounding {

  const PAGE: nat := 4096
  const FOUR_GIB: nat := 0x1_0000_0000
  const WORD: nat := 0x1_0000_0000_0000_0000

  /** a & ~(PAGE_SIZE - 1) */
  function RoundDown(a: nat): (r: nat)
    ensures r % PAGE == 0
  {
    a % FOUR_GIB / PAGE * PAGE
  }

  /** PAGE_ROUND_UP(a), in 64-bit arithmetic */
  function RoundUp(a: nat): (r: nat)
    ensures r % PAGE == 0
  {
    RoundDown((a + PAGE - 1) % WORD)
  }

  /** Rounding down gives the page boundary below exactly for addresses below 4 GiB. */
  lemma RoundDownExact(a: nat)
    ensures RoundDown(a) <= a < RoundDown(a) + PAGE <==> a < FOUR_GIB
  {
    var q := a % FOUR_GIB;
    assert a < FOUR_GIB ==> q == a;
    assert a >= FOUR_GIB ==> q <= a - FOUR_GIB;
  }

  /** Rounding up gives the next page boundary exactly for addresses at most one page
      below 4 GiB. */
  lemma RoundUpExact(a: nat)
    requires a < WORD
    ensures a <= RoundUp(a) < a + PAGE <==> a <= FOUR_GIB - PAGE
  {
    var b := (a + PAGE - 1) % WORD;
    if a + PAGE - 1 < WORD {
      assert b == a + PAGE - 1;
      RoundDownExact(b);
      assert b >= FOUR_GIB ==> b % FOUR_GIB <= b - FOUR_GIB;
    } else {
      assert b == a + PAGE - 1 - WORD;
      assert b < PAGE;
    }
  }
}
