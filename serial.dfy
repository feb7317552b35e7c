/** The USART driver of the STM32L4x2 HAL: configuration, interrupt control,
    the split into receive and transmit halves, single-byte non-blocking reads
    and writes, and the DMA set-up for circular reception. The hardware
    register block is a class whose fields the driver updates in place; the
    driver's own handles (`Serial`, `Rx`, `Tx`) are values that refer to it. */
module Serial {
  import opened Machine
  import Nb
  import Dma

  /** The USART instances the driver is generated for. */
  datatype Usart = Usart1 | Usart2

  /** Interrupt events that can be listened for. */
  datatype Event = Rxne | Txe

  /** Receive errors; `Extensible` is the hidden `_Extensible` variant, which
      no operation produces. */
  datatype Error = Framing | Noise | Overrun | Parity | Extensible

  /** The pins that appear in the pin-pair table, each in alternate function 7. */
  datatype Pin = PA2 | PA3 | PA9 | PA10 | PB6 | PB7

  /** A (TX pin, RX pin) pair. */
  datatype PinPair = PinPair(tx: Pin, rx: Pin)

  /** The `Pins` implementations: the pin pairs that may drive each USART and
      the remap code each carries; `None` for a pair that does not compile. */
  function Remap(usart: Usart, pins: PinPair): (code: Option<u8>) {
    match (usart, pins)
    case (Usart1, PinPair(PA9, PA10)) => Some(0)
    case (Usart1, PinPair(PB6, PB7)) => Some(1)
    case (Usart2, PinPair(PA2, PA3)) => Some(0)
    case _ => None
  }

  /** For one USART the remap code determines the pin pair. */
  lemma RemapIdentifiesPins(usart: Usart, p: PinPair, q: PinPair)
    requires Remap(usart, p).Some? && Remap(usart, p) == Remap(usart, q)
    ensures p == q
  {
  }

  /** No pin pair is accepted by both USARTs. */
  lemma PinsServeOneUsart(pins: PinPair)
    ensures !(Remap(Usart1, pins).Some? && Remap(Usart2, pins).Some?)
  {
  }

  /** The interrupt and status register ISR, as one atomic read returns it. */
  datatype Isr = Isr(pe: bool, fe: bool, nf: bool, ore: bool, rxne: bool, txe: bool, tc: bool)

  /** The bits of control register CR1 that the driver touches. */
  datatype Cr1 = Cr1(ue: bool, re: bool, te: bool, rxneie: bool, txeie: bool)

  /** CR1 as the constructor writes it: USART, receiver and transmitter
      enabled, every interrupt disabled. */
  const ENABLED_CR1: Cr1 := Cr1(true, true, true, false, false)

  /** The register block of one USART instance. `rdr` is the byte the driver
      reads from the receive data register; `rdrAddress` is that register's
      bus address. */
  class Registers {
    const usart: Usart
    const rdrAddress: u32
    var isr: Isr
    var rdr: u8
    var tdr: u8
    var brr: u32
    var cr1: Cr1

    constructor (usart: Usart, rdrAddress: u32, isr: Isr)
      ensures this.usart == usart && this.rdrAddress == rdrAddress && this.isr == isr
      ensures !cr1.ue
    {
      this.usart, this.rdrAddress, this.isr := usart, rdrAddress, isr;
      rdr, tdr, brr := 0, 0, 0;
      cr1 := Cr1(false, false, false, false, false);
    }
  }

  /** The peripheral buses and which of them carries each USART. */
  datatype Bus = Apb1R1 | Apb2

  function BusOf(usart: Usart): (bus: Bus) {
    match usart
    case Usart1 => Apb2
    case Usart2 => Apb1R1
  }

  /** The enable (`enr`) and reset (`rstr`) registers of one bus, reduced to
      their USART bits. */
  class Apb {
    const bus: Bus
    var enr: set<Usart>
    var rstr: set<Usart>

    constructor (bus: Bus)
      ensures this.bus == bus && enr == {} && rstr == {}
    {
      this.bus := bus;
      enr, rstr := {}, {};
    }
  }

  /** The frozen clock tree, in hertz. */
  datatype Clocks = Clocks(sysclk: u32, pclk1: u32, pclk2: u32)

  /** The bus clock that feeds each USART's baud-rate generator. */
  function KernelClock(usart: Usart, clocks: Clocks): (pclk: u32) {
    match usart
    case Usart1 => clocks.pclk2
    case Usart2 => clocks.pclk1
  }

  /** Ways in which configuring a USART panics. */
  datatype Panic = DivideByZero | ImpossibleBaudRate

  lemma DivisionBounds(n: nat, d: nat)
    requires d > 0
    ensures (n / d) * d <= n < (n / d + 1) * d
    ensures n / d >= 16 <==> 16 * d <= n
  {
  }

  /** The value written to BRR: the bus clock divided by the baud rate,
      accepted only when it is at least 16. */
  function BaudDivisor(pclk: u32, baud: u32): (r: Result<u32, Panic>)
    ensures r == Failure(DivideByZero) <==> baud == 0
    ensures r.Success? <==> baud > 0 && 16 * baud <= pclk
    ensures r.Success? ==> r.value >= 16 && r.value * baud <= pclk < (r.value + 1) * baud
  {
    if baud == 0 then Failure(DivideByZero)
    else
      DivisionBounds(pclk, baud);
      var brr := pclk / baud;
      if brr >= 16 then Success(brr) else Failure(ImpossibleBaudRate)
  }

  /** Configures a USART (the generated `usart1` and `usart2`). The bus enable
      bit is set and the reset line pulsed before the divisor is checked, so a
      panic leaves those done and the USART registers untouched. */
  method Configure(usart: Usart, regs: Registers, pins: PinPair, baud: u32, clocks: Clocks, apb: Apb)
    returns (r: Result<Serial, Panic>)
    requires regs.usart == usart
    requires Remap(usart, pins).Some?
    requires apb.bus == BusOf(usart)
    modifies regs`brr, regs`cr1, apb`enr, apb`rstr
    ensures apb.enr == old(apb.enr) + {usart}
    ensures apb.rstr == old(apb.rstr) - {usart}
    ensures r.Success? <==> BaudDivisor(KernelClock(usart, clocks), baud).Success?
    ensures r.Failure? ==> r.error == BaudDivisor(KernelClock(usart, clocks), baud).error
    ensures r.Failure? ==> regs.brr == old(regs.brr) && regs.cr1 == old(regs.cr1)
    ensures r.Success? ==> r.value == Serial(usart, regs, pins)
    ensures r.Success? ==> Success(regs.brr) == BaudDivisor(KernelClock(usart, clocks), baud)
    ensures r.Success? ==> regs.cr1 == ENABLED_CR1
    ensures r.Success? ==> r.value.Free() == (regs, pins)
  {
    apb.enr := apb.enr + {usart};
    apb.rstr := apb.rstr + {usart};
    apb.rstr := apb.rstr - {usart};

    var pclk := KernelClock(usart, clocks);
    if baud == 0 {
      return Failure(DivideByZero);
    }
    var brr := pclk / baud;
    if brr < 16 {
      return Failure(ImpossibleBaudRate);
    }
    regs.brr := brr;
    regs.cr1 := ENABLED_CR1;
    r := Success(Serial(usart, regs, pins));
  }

  /** The other interrupt event. */
  function OtherEvent(event: Event): (other: Event) {
    match event
    case Rxne => Txe
    case Txe => Rxne
  }

  /** Whether CR1 enables the interrupt for `event`. */
  predicate InterruptEnabled(c: Cr1, event: Event) {
    match event
    case Rxne => c.rxneie
    case Txe => c.txeie
  }

  /** CR1 after a read-modify-write of the interrupt-enable bit of `event`:
      that one bit becomes `on` and every other bit keeps its value. */
  function WithInterrupt(c: Cr1, event: Event, on: bool): (r: Cr1)
    ensures InterruptEnabled(r, event) == on
    ensures InterruptEnabled(r, OtherEvent(event)) == InterruptEnabled(c, OtherEvent(event))
    ensures r.ue == c.ue && r.re == c.re && r.te == c.te
  {
    match event
    case Rxne => c.(rxneie := on)
    case Txe => c.(txeie := on)
  }

  /** Setting (or clearing) the same bit twice is the same as doing it once. */
  lemma WithInterruptIdempotent(c: Cr1, event: Event, on: bool)
    ensures WithInterrupt(WithInterrupt(c, event, on), event, on) == WithInterrupt(c, event, on)
  {
  }

  /** Unlisten undoes a listen for an event that was not enabled. */
  lemma UnlistenUndoesListen(c: Cr1, event: Event)
    requires !InterruptEnabled(c, event)
    ensures WithInterrupt(WithInterrupt(c, event, true), event, false) == c
  {
  }

  /** Changes to the two interrupt bits do not interfere. */
  lemma WithInterruptCommutes(c: Cr1, on: bool, off: bool)
    ensures WithInterrupt(WithInterrupt(c, Rxne, on), Txe, off)
         == WithInterrupt(WithInterrupt(c, Txe, off), Rxne, on)
  {
  }

  /** A configured USART together with its pins. */
  datatype Serial = Serial(usart: Usart, regs: Registers, pins: PinPair) {

    /** Enables the interrupt for `event`. */
    method Listen(event: Event)
      modifies regs`cr1
      ensures regs.cr1 == WithInterrupt(old(regs.cr1), event, true)
    {
      match event
      case Rxne => regs.cr1 := regs.cr1.(rxneie := true);
      case Txe => regs.cr1 := regs.cr1.(txeie := true);
    }

    /** Disables the interrupt for `event`. */
    method Unlisten(event: Event)
      modifies regs`cr1
      ensures regs.cr1 == WithInterrupt(old(regs.cr1), event, false)
    {
      match event
      case Rxne => regs.cr1 := regs.cr1.(rxneie := false);
      case Txe => regs.cr1 := regs.cr1.(txeie := false);
    }

    /** The transmit and receive halves, both on this USART's registers;
        splitting writes no register. */
    function Split(): (halves: (Tx, Rx))
      ensures halves.0.usart == usart && halves.0.regs == regs
      ensures halves.1.usart == usart && halves.1.regs == regs
    {
      (Tx(usart, regs), Rx(usart, regs))
    }

    /** Gives back the register block and the pins, writing no register. */
    function Free(): (parts: (Registers, PinPair))
      ensures parts.0 == regs && parts.1 == pins
    {
      (regs, pins)
    }
  }

  /** The receive errors in the order in which `read` tests their flags. */
  const ERROR_PRIORITY: seq<Error> := [Parity, Framing, Noise, Overrun]

  /** The ISR flag that reports receive error `e`. */
  predicate Raised(isr: Isr, e: Error) {
    match e
    case Parity => isr.pe
    case Framing => isr.fe
    case Noise => isr.nf
    case Overrun => isr.ore
    case Extensible => false
  }

  /** The position of the first error in `errors` whose flag is raised, or
      `|errors|` when none is. */
  function FirstRaised(isr: Isr, errors: seq<Error>): (k: nat)
    ensures k <= |errors|
    ensures k < |errors| ==> Raised(isr, errors[k])
    ensures forall j :: 0 <= j < k ==> !Raised(isr, errors[j])
  {
    if errors == [] then 0
    else if Raised(isr, errors[0]) then 0
    else 1 + FirstRaised(isr, errors[1..])
  }

  /** On the priority list, the scan stops at the first of PE, FE, NF, ORE
      that is set. */
  lemma {:induction false} FirstRaisedOnPriority(isr: Isr)
    ensures FirstRaised(isr, ERROR_PRIORITY)
         == if isr.pe then 0 else if isr.fe then 1 else if isr.nf then 2 else if isr.ore then 3 else 4
  {
    var p3: seq<Error> := [Overrun];
    var p2: seq<Error> := [Noise] + p3;
    var p1: seq<Error> := [Framing] + p2;
    assert ERROR_PRIORITY == [Parity] + p1;
    assert p3[1..] == [];
    assert FirstRaised(isr, p3) == if isr.ore then 0 else 1;
    assert p2[1..] == p3;
    assert FirstRaised(isr, p2) == if isr.nf then 0 else 1 + FirstRaised(isr, p3);
    assert p1[1..] == p2;
    assert FirstRaised(isr, p1) == if isr.fe then 0 else 1 + FirstRaised(isr, p2);
    assert ERROR_PRIORITY[1..] == p1;
  }

  /** What `read` reports for one ISR snapshot: the highest-priority raised
      error; otherwise the received byte if RXNE is set; otherwise WouldBlock. */
  function ReadOutcome(isr: Isr, rdr: u8): (r: Nb.Result<u8, Error>) {
    var k := FirstRaised(isr, ERROR_PRIORITY);
    if k < |ERROR_PRIORITY| then Nb.Err(Nb.Other(ERROR_PRIORITY[k]))
    else if isr.rxne then Nb.Ok(rdr)
    else Nb.Err(Nb.WouldBlock)
  }

  /** Read reports error number `i` of the priority list exactly when its
      flag is raised and no earlier one is. */
  lemma ReadPriority(isr: Isr, rdr: u8, i: nat)
    requires i < |ERROR_PRIORITY|
    ensures ReadOutcome(isr, rdr) == Nb.Err(Nb.Other(ERROR_PRIORITY[i]))
        <==> Raised(isr, ERROR_PRIORITY[i]) && forall j :: 0 <= j < i ==> !Raised(isr, ERROR_PRIORITY[j])
  {
  }

  /** Read returns a byte exactly when no error flag is raised and RXNE is
      set, and the byte is the receive data register's. */
  lemma ReadOkIff(isr: Isr, rdr: u8)
    ensures ReadOutcome(isr, rdr).Ok? <==> !isr.pe && !isr.fe && !isr.nf && !isr.ore && isr.rxne
    ensures ReadOutcome(isr, rdr).Ok? ==> ReadOutcome(isr, rdr).value == rdr
  {
    FirstRaisedOnPriority(isr);
  }

  /** Read reports WouldBlock exactly when no flag it tests is set. */
  lemma ReadWouldBlockIff(isr: Isr, rdr: u8)
    ensures ReadOutcome(isr, rdr) == Nb.Err(Nb.WouldBlock)
        <==> !isr.pe && !isr.fe && !isr.nf && !isr.ore && !isr.rxne
  {
    FirstRaisedOnPriority(isr);
  }

  /** The hidden variant is never reported. */
  lemma ReadNeverExtensible(isr: Isr, rdr: u8)
    ensures ReadOutcome(isr, rdr) != Nb.Err(Nb.Other(Extensible))
  {
  }

  /** Parity, framing and data flags raised together: parity wins. */
  lemma ParityWinsOverFramingAndData(rdr: u8)
    ensures ReadOutcome(Isr(true, true, false, false, true, false, false), rdr) == Nb.Err(Nb.Other(Parity))
  {
  }

  /** The DMA1 channel that `circ_read` is generated for: the one the macro
      invocation labels `tx:`, because the macro binds that label to its
      receive-channel parameter. */
  function RxDmaChannel(usart: Usart): (number: nat) {
    match usart
    case Usart1 => 4
    case Usart2 => 7
  }

  /** The static double buffer: the address of the first byte of its first
      half and the length of each half. */
  datatype DoubleBuffer = DoubleBuffer(address: u32, halfLength: nat)

  /** The handle `circ_read` returns: the buffer and the channel streaming into it. */
  datatype CircBuffer = CircBuffer(buffer: DoubleBuffer, channel: Dma.Channel)

  /** The value written to CNDTR: twice the half length, cut to 16 bits. */
  function TransferCount(halfLength: nat): (n: u16)
    ensures n == 2 * halfLength <==> halfLength < U16_MODULUS / 2
  {
    (2 * halfLength) % U16_MODULUS
  }

  /** Halves of 32768 bytes or more are programmed with a short count; 32768
      programs a count of zero. */
  lemma TransferCountWraps(halfLength: nat)
    ensures TransferCount(halfLength + U16_MODULUS / 2) == TransferCount(halfLength)
    ensures TransferCount(U16_MODULUS / 2) == 0
  {
  }

  /** The receive half. */
  datatype Rx = Rx(usart: Usart, regs: Registers) {

    /** Reads one ISR snapshot and turns it into a byte or an error. Writes
        no register. */
    method Read() returns (r: Nb.Result<u8, Error>)
      ensures r == ReadOutcome(regs.isr, regs.rdr)
    {
      var isr := regs.isr;
      FirstRaisedOnPriority(isr);
      if isr.pe {
        r := Nb.Err(Nb.Other(Parity));
      } else if isr.fe {
        r := Nb.Err(Nb.Other(Framing));
      } else if isr.nf {
        r := Nb.Err(Nb.Other(Noise));
      } else if isr.ore {
        r := Nb.Err(Nb.Other(Overrun));
      } else if isr.rxne {
        r := Nb.Ok(regs.rdr);
      } else {
        r := Nb.Err(Nb.WouldBlock);
      }
    }

    /** Programs `chan` to stream received bytes into `buffer` for ever and
        hands both to the returned handle. */
    method CircRead(chan: Dma.Channel, buffer: DoubleBuffer) returns (c: CircBuffer)
      requires chan.number == RxDmaChannel(usart)
      modifies chan
      ensures chan.cmar == buffer.address
      ensures chan.cpar == regs.rdrAddress
      ensures chan.cndtr == TransferCount(buffer.halfLength)
      ensures Dma.CircularPeripheralToMemory(chan.ccr)
      ensures Dma.SameInterruptEnables(chan.ccr, old(chan.ccr))
      ensures c == CircBuffer(buffer, chan)
    {
      chan.cmar := buffer.address;
      chan.cndtr := TransferCount(buffer.halfLength);
      chan.cpar := regs.rdrAddress;
      chan.ccr := chan.ccr.(
        mem2mem := false,
        pl := Dma.PRIORITY_HIGH,
        msize := Dma.SIZE_8_BITS,
        psize := Dma.SIZE_8_BITS,
        minc := true,
        pinc := false,
        circ := true,
        dir := false,
        en := true);
      c := CircBuffer(buffer, chan);
    }
  }

  /** The transmit half. */
  datatype Tx = Tx(usart: Usart, regs: Registers) {

    /** Done exactly when transmission is complete; writes no register. */
    method Flush() returns (r: Nb.Poll)
      ensures r == Nb.Ready <==> regs.isr.tc
    {
      var isr := regs.isr;
      if isr.tc {
        r := Nb.Ready;
      } else {
        r := Nb.Pending;
      }
    }

    /** Hands `byte` to the transmitter when the data register is empty;
        otherwise changes nothing. */
    method Write(byte: u8) returns (r: Nb.Poll)
      modifies regs`tdr
      ensures r == Nb.Ready <==> regs.isr.txe
      ensures regs.isr.txe ==> regs.tdr == byte
      ensures !regs.isr.txe ==> regs.tdr == old(regs.tdr)
    {
      var isr := regs.isr;
      if isr.txe {
        regs.tdr := byte;
        r := Nb.Ready;
      } else {
        r := Nb.Pending;
      }
    }
  }
}
