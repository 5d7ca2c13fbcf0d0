/**
 * Vector assignment of the two chained Intel 8259A interrupt controllers
 * (src/sys/pic.rs): the master is remapped to vectors 32..39, the slave,
 * cascaded off the master, to 40..47, and the kernel's IRQ identifiers are
 * enum discriminants in those ranges.
 */
module Pic {
  import opened Ints

  /** Number of interrupt lines of one 8259A. */
  const LINES_PER_CHIP: nat := 8

  /** Vectors 0..31 are reserved for CPU exceptions. */
  const CPU_EXCEPTION_VECTORS: nat := 32

  /** Base vector of the master controller. */
  const PIC_1_OFFSET: U8 := 32

  /** Base vector of the slave controller, directly after the master's eight. */
  const PIC_2_OFFSET: U8 := PIC_1_OFFSET + 8

  /** The kernel's hardware interrupt requests. */
  datatype Irq = Timer | Keyboard | Rtc

  datatype Chip = Master | Slave

  /**
   * The PC/AT wiring of each device to a global IRQ line: the interval timer
   * on line 0, the keyboard on line 1, the real-time clock on line 8 (the
   * slave's line 0). This is the reference the discriminants are checked against.
   */
  function IsaLine(irq: Irq): nat
  {
    match irq
    case Timer => 0
    case Keyboard => 1
    case Rtc => 8
  }

  /** The vector a remapped chained pair delivers for global line `line`. */
  function LineVector(line: nat): nat
    requires line < 2 * LINES_PER_CHIP
  {
    if line < LINES_PER_CHIP then PIC_1_OFFSET + line else PIC_2_OFFSET + (line - LINES_PER_CHIP)
  }

  /**
   * `Irq as u8`: `Timer = PIC_1_OFFSET`, `Keyboard` takes the next
   * discriminant, `Rtc = PIC_1_OFFSET + 8`.
   */
  function AsU8(irq: Irq): (v: U8)
    ensures v == LineVector(IsaLine(irq))
    ensures CPU_EXCEPTION_VECTORS <= v < PIC_2_OFFSET + LINES_PER_CHIP
  {
    match irq
    case Timer => PIC_1_OFFSET
    case Keyboard => PIC_1_OFFSET + 1  // the discriminant after Timer's
    case Rtc => PIC_1_OFFSET + 8
  }

  /** `as_usize`: the discriminant widened to `usize`. */
  function AsUsize(irq: Irq): (v: Usize)
    ensures v == LineVector(IsaLine(irq)) && ChipOf(v).Some?
  {
    AsU8(irq) as Usize
  }

  /** The controller that `ChainedPics::new(PIC_1_OFFSET, PIC_2_OFFSET)` routes a vector to, if any. */
  function ChipOf(vector: nat): (c: Option<Chip>)
    ensures c.Some? <==> PIC_1_OFFSET <= vector < PIC_2_OFFSET + LINES_PER_CHIP
  {
    if PIC_1_OFFSET <= vector < PIC_1_OFFSET + LINES_PER_CHIP then Some(Master)
    else if PIC_2_OFFSET <= vector < PIC_2_OFFSET + LINES_PER_CHIP then Some(Slave)
    else None
  }

  datatype Option<T> = None | Some(value: T)

  /** The two controllers' vector ranges are disjoint and lie above the CPU exceptions. */
  lemma OffsetsDisjoint(v: nat)
    ensures PIC_2_OFFSET == PIC_1_OFFSET + LINES_PER_CHIP == 40
    ensures CPU_EXCEPTION_VECTORS <= PIC_1_OFFSET
    ensures !(PIC_1_OFFSET <= v < PIC_1_OFFSET + LINES_PER_CHIP && PIC_2_OFFSET <= v < PIC_2_OFFSET + LINES_PER_CHIP)
  {
  }

  /** The concrete discriminants and the controller line each one occupies. */
  lemma IrqVectors()
    ensures AsU8(Timer) == 32 && ChipOf(AsU8(Timer)) == Some(Master)
    ensures AsU8(Keyboard) == 33 && ChipOf(AsU8(Keyboard)) == Some(Master)
    ensures AsU8(Rtc) == 40 == PIC_2_OFFSET && ChipOf(AsU8(Rtc)) == Some(Slave)
  {
  }

  /** `as_usize` agrees with `as_u8`, and distinct IRQs have distinct vectors. */
  lemma {:induction false} AsUsizeInjective(a: Irq, b: Irq)
    ensures AsUsize(a) == AsU8(a)
    ensures AsUsize(a) == AsUsize(b) <==> a == b
  {
    assert IsaLine(a) == IsaLine(b) ==> a == b;
  }
}
