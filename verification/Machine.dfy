/** The machine the programs run on: words of memory, pages, and C's fixed-width integers. */
module Machine {

  /** The words that can be accessed, by their addresses. */
  type Memory = map<int, int>

  const APAGE_SIZE := 0x1000
  const PAGES := 0x10_0000_0000_0000               // of the address space
  const ADDRESS_LIMIT := 0x1_0000_0000_0000_0000   // pointers are 64-bit
  const INT_MAX := 0x7fff_ffff

  /** The value of an `int` that was to hold `x`, wrapping around in two's complement. */
  function Int32(x: int): int { (x + 0x8000_0000) % 0x1_0000_0000 - 0x8000_0000 }

  /** An `int` converted to `size_t`. */
  function SizeT(x: int): int { x % ADDRESS_LIMIT }

  lemma Int32Periodic(x: int, m: int)
    ensures Int32(x + 0x1_0000_0000 * m) == Int32(x)
  {
  }

  lemma Int32Sum(x: int, d: int)
    ensures Int32(Int32(x) + d) == Int32(x + d)
  {
    var q := (x + 0x8000_0000) / 0x1_0000_0000;
    assert Int32(x) == x - 0x1_0000_0000 * q;
    Int32Periodic(x + d, -q);
  }

  lemma Int32Product(x: int)
    ensures Int32(APAGE_SIZE * Int32(x)) == Int32(APAGE_SIZE * x)
  {
    var q := (x + 0x8000_0000) / 0x1_0000_0000;
    assert Int32(x) == x - 0x1_0000_0000 * q;
    Int32Periodic(APAGE_SIZE * x, -APAGE_SIZE * q);
  }
}
