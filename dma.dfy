/** The register block of one channel of the DMA1 controller, as far as the
    serial driver programs it. */
module Dma {
  import opened Machine

  /** A two-bit field of CCR (priority level, memory and peripheral size). */
  type Bits2 = x: int | 0 <= x < 4

  /** PL = 0b10: high priority. */
  const PRIORITY_HIGH: Bits2 := 2
  /** MSIZE / PSIZE = 0b00: 8-bit transfers. */
  const SIZE_8_BITS: Bits2 := 0

  /** The channel configuration register CCR, field by field. `dir` clear
      means "read from the peripheral". */
  datatype Ccr = Ccr(
    en: bool, tcie: bool, htie: bool, teie: bool,
    dir: bool, circ: bool, pinc: bool, minc: bool,
    psize: Bits2, msize: Bits2, pl: Bits2, mem2mem: bool)

  /** The channel moves single bytes from one fixed peripheral address to
      consecutive memory addresses, restarts at the first address once the
      count runs out, runs at high priority, and is switched on. */
  predicate CircularPeripheralToMemory(c: Ccr) {
    && c.en
    && !c.mem2mem
    && !c.dir
    && c.circ
    && c.minc
    && !c.pinc
    && c.psize == SIZE_8_BITS
    && c.msize == SIZE_8_BITS
    && c.pl == PRIORITY_HIGH
  }

  /** The interrupt-enable bits of CCR agree in `a` and `b`. */
  predicate SameInterruptEnables(a: Ccr, b: Ccr) {
    a.tcie == b.tcie && a.htie == b.htie && a.teie == b.teie
  }

  /** Channel `number` of DMA1: memory address CMAR, transfer count CNDTR
      (16 bits), peripheral address CPAR and configuration CCR. */
  class Channel {
    const number: nat
    var cmar: u32
    var cndtr: u16
    var cpar: u32
    var ccr: Ccr

    constructor (number: nat)
      ensures this.number == number
      ensures !ccr.en
    {
      this.number := number;
      cmar, cndtr, cpar := 0, 0, 0;
      ccr := Ccr(false, false, false, false, false, false, false, false, 0, 0, 0, false);
    }
  }
}
