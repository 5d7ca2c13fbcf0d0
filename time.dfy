/**
 * The timer tick source of src/sys/time.rs: the `PIT_TICKS` counter that only
 * the timer interrupt handler advances, `halt`, which yields the CPU until the
 * next interrupt without losing the caller's interrupt-enable state, and the
 * programming of channel 0 of the Intel 8254 interval timer.
 *
 * The CPU's interrupt flag is a field, and every port write, `cli`, `sti`,
 * `hlt`, tick increment and end-of-interrupt is appended to a trace in the
 * order the source performs it.
 */
module Time {
  import opened Ints
  import Pic

  /** `PIT_DIVIDER`: about 1000 interrupts per second from the 1.193 MHz input clock. */
  const PIT_DIVIDER: U32 := 1193

  /** The 8254's mode/command register and the data port of channel 0. */
  const PIT_COMMAND_PORT: U16 := 0x43
  const PIT_CHANNEL0_PORT: U16 := 0x40

  /** Observable effects, in program order. */
  datatype Event =
    | Cli                          // interrupts::disable
    | Sti                          // the `sti` of interrupts::enable and enable_and_hlt
    | Hlt                          // the `hlt` of enable_and_hlt
    | Out(port: U16, value: U8)    // a byte written to an I/O port
    | TickIncrement                // PIT_TICKS.fetch_add(1)
    | EndOfInterrupt(vector: U8)   // PICS.notify_end_of_interrupt(vector)

  /** The interrupt flag after `events`, starting from `initial`. */
  function FlagAfter(initial: bool, events: seq<Event>): bool
    decreases |events|
  {
    if events == [] then initial
    else
      var before := FlagAfter(initial, events[..|events| - 1]);
      match events[|events| - 1]
      case Cli => false
      case Sti => true
      case _ => before
  }

  lemma {:induction false} FlagAfterAppend(initial: bool, a: seq<Event>, b: seq<Event>)
    ensures FlagAfter(initial, a + b) == FlagAfter(FlagAfter(initial, a), b)
    decreases |b|
  {
    if b == [] {
      assert a + b == a;
    } else {
      var n := |b| - 1;
      assert (a + b)[..|a + b| - 1] == a + b[..n];
      FlagAfterAppend(initial, a, b[..n]);
    }
  }

  /** No port is written while interrupts are enabled. */
  ghost predicate PortWritesMasked(initial: bool, events: seq<Event>)
  {
    forall k :: 0 <= k < |events| && events[k].Out? ==> !FlagAfter(initial, events[..k])
  }

  /** The port writes of a trace, in order. */
  function PortWrites(events: seq<Event>): (outs: seq<Event>)
    ensures forall k :: 0 <= k < |outs| ==> outs[k].Out?
    decreases |events|
  {
    if events == [] then []
    else (if events[0].Out? then [events[0]] else []) + PortWrites(events[1..])
  }

  // ---------------------------------------------------------------------------
  // Intel 8254 programming

  /**
   * The command byte `(channel << 6) | (access_mode << 4) | operating_mode`
   * with access mode 3 and operating mode 6, computed on `u8`.
   */
  function PitCommand(channel: U8): (cmd: U8)
    ensures cmd == (channel % 4) * 64 + 0x36
  {
    var packed: bv8 := (channel as bv8 << 6) | (3 << 4) | 6;
    CommandBits(channel);
    packed as int
  }

  lemma CommandBits(channel: U8)
    ensures ((channel as bv8 << 6) | (3 << 4) | 6) as int == (channel % 4) * 64 + 0x36
  {
    var c: bv8 := channel as bv8;
    assert (c << 6) == (c % 4) * 64;
    assert (c << 6) | 0x36 == (c % 4) * 64 + 0x36;
    assert ((channel as bv8) % 4) as int == channel % 4;
  }

  /** Fields of an 8254 control word: counter select (bits 7-6), read/write mode (5-4), mode (3-1), BCD (0). */
  function SelectCounter(cmd: U8): nat { cmd / 64 }
  function AccessMode(cmd: U8): nat { (cmd / 16) % 4 }
  function CounterMode(cmd: U8): nat { (cmd / 2) % 8 }
  function BcdCounting(cmd: U8): nat { cmd % 2 }

  /**
   * The command selects `channel` (for the channels 0..2 the source uses),
   * low byte then high byte, mode 3 (square wave generator) and binary
   * counting; for channel 0 it is 0x36. The source's `operating_mode = 6`
   * is mode 3 already shifted past the BCD bit.
   */
  lemma PitCommandFields(channel: U8)
    requires channel < 3
    ensures SelectCounter(PitCommand(channel)) == channel
    ensures AccessMode(PitCommand(channel)) == 3
    ensures CounterMode(PitCommand(channel)) == 3
    ensures BcdCounting(PitCommand(channel)) == 0
    ensures channel == 0 ==> PitCommand(channel) == 0x36
  {
  }

  /** `divider.to_le_bytes()`. */
  function LeBytes(divider: U16): (bytes: (U8, U8))
    ensures bytes.0 + 0x100 * bytes.1 == divider
  {
    (divider % 0x100, divider / 0x100)
  }

  /** The reload value 0 stands for 65536; any other value counts itself. */
  function EffectiveDivisor(divider: U16): (n: nat)
    ensures 1 <= n <= 0x1_0000
  {
    if divider == 0 then 0x1_0000 else divider
  }

  /** The reload value that makes the counter divide by `n`. */
  function DividerFor(n: nat): U16
    requires 1 <= n <= 0x1_0000
  {
    n % 0x1_0000
  }

  /** Reload values and effective divisors 1..65536 correspond one to one. */
  lemma EffectiveDivisorRoundTrip(divider: U16, n: nat)
    requires 1 <= n <= 0x1_0000
    ensures DividerFor(EffectiveDivisor(divider)) == divider
    ensures EffectiveDivisor(DividerFor(n)) == n
  {
  }

  /**
   * The divider `init` chooses: `PIT_DIVIDER` when it is below `u16::MAX`,
   * otherwise 0 (a divisor of 65536). So below 65535 the timer divides by
   * exactly the constant and above it by the largest divisor there is;
   * 65535 itself, though it fits, also becomes 0.
   */
  function InitDivider(pitDivider: U32): (d: U16)
    ensures 1 <= pitDivider < U16_MAX ==> EffectiveDivisor(d) == pitDivider
    ensures U16_MAX <= pitDivider ==> EffectiveDivisor(d) == 0x1_0000
    ensures pitDivider == 0 ==> d == 0
  {
    if pitDivider < U16_MAX then pitDivider else 0
  }

  /** What `set_pit_frequency_divider(divider, channel)` does when called with the interrupt flag `enabled`. */
  function PitProgramTrace(divider: U16, channel: U8, enabled: bool): (t: seq<Event>)
    ensures |t| == if enabled then 5 else 3
    ensures forall k :: 0 <= k < |t| ==> t[k].Cli? || t[k].Sti? || t[k].Out?
    ensures forall k :: 0 <= k < |t| && t[k].Out? ==> t[k].port == PIT_COMMAND_PORT || t[k].port == PIT_CHANNEL0_PORT + channel
    ensures (Cli in t) <==> enabled
  {
    var bytes := LeBytes(divider);
    (if enabled then [Cli] else []) +
    [Out(PIT_COMMAND_PORT, PitCommand(channel)),
     Out(PIT_CHANNEL0_PORT + channel, bytes.0),
     Out(PIT_CHANNEL0_PORT + channel, bytes.1)] +
    (if enabled then [Sti] else [])
  }

  /**
   * Programming the timer writes the command byte to 0x43, then the low and
   * then the high byte of the divider to the channel's data port; all three
   * happen with interrupts disabled, and the flag ends as it began.
   */
  lemma {:induction false} PitProgramSequence(divider: U16, channel: U8, enabled: bool)
    ensures PortWrites(PitProgramTrace(divider, channel, enabled)) ==
              [Out(PIT_COMMAND_PORT, PitCommand(channel)),
               Out(PIT_CHANNEL0_PORT + channel, divider % 0x100),
               Out(PIT_CHANNEL0_PORT + channel, divider / 0x100)]
    ensures PortWritesMasked(enabled, PitProgramTrace(divider, channel, enabled))
    ensures FlagAfter(enabled, PitProgramTrace(divider, channel, enabled)) == enabled
  {
    var t := PitProgramTrace(divider, channel, enabled);
    var outs := [Out(PIT_COMMAND_PORT, PitCommand(channel)),
                 Out(PIT_CHANNEL0_PORT + channel, divider % 0x100),
                 Out(PIT_CHANNEL0_PORT + channel, divider / 0x100)];
    var pre: seq<Event> := if enabled then [Cli] else [];
    var post: seq<Event> := if enabled then [Sti] else [];
    assert t == pre + outs + post;
    PortWritesOfOuts(pre, outs, post);
    forall k | 0 <= k < |t| && t[k].Out?
      ensures !FlagAfter(enabled, t[..k])
    {
      var m := k - |pre|;
      assert 0 <= m < 3;
      assert t[..k] == pre + outs[..m];
      FlagAfterAppend(enabled, pre, outs[..m]);
      FlagAfterOuts(FlagAfter(enabled, pre), outs[..m]);
    }
    FlagAfterAppend(enabled, pre + outs, post);
    FlagAfterAppend(enabled, pre, outs);
    FlagAfterOuts(FlagAfter(enabled, pre), outs);
  }

  /** An event that leaves the interrupt flag alone. */
  predicate KeepsFlag(e: Event)
  {
    !e.Cli? && !e.Sti?
  }

  lemma {:induction false} FlagAfterOuts(initial: bool, events: seq<Event>)
    requires forall k :: 0 <= k < |events| ==> KeepsFlag(events[k])
    ensures FlagAfter(initial, events) == initial
    decreases |events|
  {
    if events != [] {
      FlagAfterOuts(initial, events[..|events| - 1]);
    }
  }

  lemma {:induction false} PortWritesAppend(a: seq<Event>, b: seq<Event>)
    ensures PortWrites(a + b) == PortWrites(a) + PortWrites(b)
    decreases |a|
  {
    if a == [] {
      assert a + b == b;
    } else {
      assert (a + b)[1..] == a[1..] + b;
      PortWritesAppend(a[1..], b);
    }
  }

  lemma PortWritesOfOuts(pre: seq<Event>, outs: seq<Event>, post: seq<Event>)
    requires |outs| == 3 && outs[0].Out? && outs[1].Out? && outs[2].Out?
    requires pre == [] || pre == [Cli]
    requires post == [] || post == [Sti]
    ensures PortWrites(pre + outs + post) == outs
  {
    PortWritesAppend(pre + outs, post);
    PortWritesAppend(pre, outs);
    assert PortWrites(pre) == [] by {
      if pre != [] { assert pre[1..] == []; }
    }
    assert PortWrites(post) == [] by {
      if post != [] { assert post[1..] == []; }
    }
    var o2 := outs[2..];
    assert o2[1..] == [];
    assert PortWrites(o2) == [outs[2]];
    var o1 := outs[1..];
    assert o1[1..] == o2;
    assert PortWrites(o1) == [outs[1], outs[2]];
    assert PortWrites(outs) == [outs[0]] + PortWrites(o1);
  }

  /**
   * `init` programs channel 0 with `PIT_DIVIDER`: command 0x36, then 0xA9
   * and 0x04, the little-endian bytes of 1193.
   */
  lemma InitProgramsChannel0(enabled: bool)
    ensures InitDivider(PIT_DIVIDER) == 1193
    ensures PortWrites(PitProgramTrace(InitDivider(PIT_DIVIDER), 0, enabled)) ==
              [Out(0x43, 0x36), Out(0x40, 0xA9), Out(0x40, 0x04)]
  {
    PitProgramSequence(1193, 0, enabled);
  }

  // ---------------------------------------------------------------------------
  // Halting

  /** What `halt` does when called with the interrupt flag `enabled`, woken by a timer tick or another interrupt. */
  function HaltTrace(enabled: bool, timerWakes: bool): (t: seq<Event>)
    ensures |t| >= 2 && t[..2] == [Sti, Hlt] && Hlt !in t[2..]
    ensures (TickIncrement in t) <==> timerWakes
    ensures (Cli in t) <==> !enabled
  {
    [Sti, Hlt] +
    (if timerWakes then [TickIncrement, EndOfInterrupt(Pic.AsU8(Pic.Timer))] else []) +
    (if enabled then [] else [Cli])
  }

  /**
   * `halt` waits with interrupts enabled, so that an interrupt can wake it,
   * and leaves the flag as it found it: disabled before means disabled after.
   */
  lemma {:induction false} HaltRestoresFlag(enabled: bool, timerWakes: bool)
    ensures FlagAfter(enabled, HaltTrace(enabled, timerWakes)[..2]) == true
    ensures FlagAfter(enabled, HaltTrace(enabled, timerWakes)) == enabled
  {
    var wake: seq<Event> := if timerWakes then [TickIncrement, EndOfInterrupt(Pic.AsU8(Pic.Timer))] else [];
    var tail: seq<Event> := if enabled then [] else [Cli];
    var t := HaltTrace(enabled, timerWakes);
    assert t[..2] == [Sti, Hlt];
    assert FlagAfter(enabled, [Sti, Hlt]) by {
      assert [Sti, Hlt][..1] == [Sti];
      assert [Sti][..0] == [];
    }
    FlagAfterAppend(enabled, [Sti, Hlt] + wake, tail);
    FlagAfterAppend(enabled, [Sti, Hlt], wake);
    FlagAfterOuts(true, wake);
    if !enabled {
      assert tail[..0] == [];
    }
  }

  // ---------------------------------------------------------------------------
  // Ticks

  /** `PIT_TICKS` after a run of interrupts from `start`: only timer interrupts add one, wrapping like `fetch_add`. */
  function TicksAfter(start: Usize, irqs: seq<Pic.Irq>): (t: Usize)
    ensures (forall k :: 0 <= k < |irqs| ==> irqs[k] != Pic.Timer) ==> t == start
    decreases |irqs|
  {
    if irqs == [] then start
    else TicksAfter(if irqs[0] == Pic.Timer then (start + 1) % USIZE_MODULUS else start, irqs[1..])
  }

  function TimerCount(irqs: seq<Pic.Irq>): nat
    decreases |irqs|
  {
    if irqs == [] then 0 else (if irqs[0] == Pic.Timer then 1 else 0) + TimerCount(irqs[1..])
  }

  /**
   * After any interleaving of interrupts the tick count is the start value
   * plus the number of timer interrupts, modulo 2^64.
   */
  lemma {:induction false} TicksAfterCount(start: Usize, irqs: seq<Pic.Irq>)
    ensures TicksAfter(start, irqs) == (start + TimerCount(irqs)) % USIZE_MODULUS
    decreases |irqs|
  {
    if irqs != [] {
      var next := if irqs[0] == Pic.Timer then (start + 1) % USIZE_MODULUS else start;
      TicksAfterCount(next, irqs[1..]);
      var n := TimerCount(irqs[1..]);
      if irqs[0] == Pic.Timer {
        ModAddAssoc(start + 1, n);
      } else {
        assert (start % USIZE_MODULUS) == start;
      }
    }
  }

  lemma ModAddAssoc(a: nat, n: nat)
    ensures ((a % USIZE_MODULUS) + n) % USIZE_MODULUS == (a + n) % USIZE_MODULUS
  {
    var m := USIZE_MODULUS;
    var q := a / m;
    assert a == q * m + a % m;
    assert (a + n) == q * m + (a % m + n);
    ModMultipleAdd(q, a % m + n);
  }

  lemma ModMultipleAdd(q: nat, b: nat)
    ensures (q * USIZE_MODULUS + b) % USIZE_MODULUS == b % USIZE_MODULUS
    decreases q
  {
    if q > 0 {
      assert q * USIZE_MODULUS + b == (q - 1) * USIZE_MODULUS + (b + USIZE_MODULUS);
      ModMultipleAdd(q - 1, b + USIZE_MODULUS);
    }
  }

  /** The number of `PIT_TICKS` increments recorded in a trace. */
  function TickCount(events: seq<Event>): nat
    decreases |events|
  {
    if events == [] then 0
    else TickCount(events[..|events| - 1]) + (if events[|events| - 1] == TickIncrement then 1 else 0)
  }

  lemma {:induction false} TickCountAppend(a: seq<Event>, b: seq<Event>)
    ensures TickCount(a + b) == TickCount(a) + TickCount(b)
    decreases |b|
  {
    if b == [] {
      assert a + b == a;
    } else {
      var n := |b| - 1;
      assert (a + b)[..|a + b| - 1] == a + b[..n];
      TickCountAppend(a, b[..n]);
    }
  }

  /** A halt adds one to `PIT_TICKS` exactly when the timer ends it. */
  lemma HaltTicks(enabled: bool, timerWakes: bool)
    ensures TickCount(HaltTrace(enabled, timerWakes)) == if timerWakes then 1 else 0
  {
    var wake: seq<Event> := if timerWakes then [TickIncrement, EndOfInterrupt(Pic.AsU8(Pic.Timer))] else [];
    var tail: seq<Event> := if enabled then [] else [Cli];
    TickCountAppend([Sti, Hlt] + wake, tail);
    TickCountAppend([Sti, Hlt], wake);
    assert [Sti, Hlt][..1] == [Sti];
    assert [Sti][..0] == [];
    if timerWakes {
      assert wake[..1] == [TickIncrement];
    }
    if !enabled {
      assert tail[..0] == [];
    }
  }

  /**
   * The events recorded while servicing `irqs` in turn: a timer interrupt runs
   * `handle_timer_interrupt`; the keyboard and RTC handlers are not part of
   * this model and are recorded only by their acknowledgement.
   */
  function IrqTrace(irqs: seq<Pic.Irq>): seq<Event>
    decreases |irqs|
  {
    if irqs == [] then []
    else
      (if irqs[0] == Pic.Timer then [TickIncrement, EndOfInterrupt(Pic.AsU8(Pic.Timer))]
       else [EndOfInterrupt(Pic.AsU8(irqs[0]))]) + IrqTrace(irqs[1..])
  }

  /**
   * Servicing a run of interrupts records one increment per timer interrupt,
   * so a `Machine` that services them ends with `TicksAfter` of its counter.
   */
  lemma {:induction false} IrqTraceTicks(start: Usize, irqs: seq<Pic.Irq>)
    ensures TickCount(IrqTrace(irqs)) == TimerCount(irqs)
    ensures (start + TickCount(IrqTrace(irqs))) % USIZE_MODULUS == TicksAfter(start, irqs)
    decreases |irqs|
  {
    if irqs != [] {
      var head: seq<Event> := if irqs[0] == Pic.Timer then [TickIncrement, EndOfInterrupt(Pic.AsU8(Pic.Timer))]
                              else [EndOfInterrupt(Pic.AsU8(irqs[0]))];
      TickCountAppend(head, IrqTrace(irqs[1..]));
      IrqTraceTicks(start, irqs[1..]);
      assert TickCount(head) == if irqs[0] == Pic.Timer then 1 else 0 by {
        if irqs[0] == Pic.Timer {
          assert head[..1] == [TickIncrement];
          assert [TickIncrement][..0] == [];
          assert TickCount([TickIncrement]) == 1;
        } else {
          assert head[..0] == [];
        }
      }
    }
    TicksAfterCount(start, irqs);
  }

  /** While the count stays below 2^64 it grows by exactly the number of timer interrupts. */
  lemma TicksMonotone(start: Usize, irqs: seq<Pic.Irq>)
    requires start + TimerCount(irqs) < USIZE_MODULUS
    ensures TicksAfter(start, irqs) == start + TimerCount(irqs) >= start
  {
    TicksAfterCount(start, irqs);
  }

  // ---------------------------------------------------------------------------
  // The machine

  /** The CPU interrupt flag, the `PIT_TICKS` counter and the trace of effects. */
  class Machine {
    var interruptsEnabled: bool
    var ticks: Usize
    var trace: seq<Event>
    /** The interrupt flag before the first recorded event. */
    ghost const bootFlag: bool

    /** The counter before the first recorded event. */
    ghost const bootTicks: Usize

    /**
     * The flag is what the recorded `cli`/`sti` made of the flag at boot, and
     * the counter is its boot value plus the recorded increments, wrapping.
     */
    ghost predicate Valid()
      reads this
    {
      && interruptsEnabled == FlagAfter(bootFlag, trace)
      && ticks == (bootTicks + TickCount(trace)) % USIZE_MODULUS
    }

    /** `PIT_TICKS = AtomicUsize::new(0)`, nothing recorded yet. */
    constructor (enabled: bool)
      ensures Valid() && bootFlag == enabled && bootTicks == 0
      ensures interruptsEnabled == enabled && ticks == 0 && trace == []
    {
      bootFlag := enabled;
      bootTicks := 0;
      interruptsEnabled := enabled;
      ticks := 0;
      trace := [];
    }

    /** `ticks()`: the atomic load of `PIT_TICKS`. */
    method Ticks() returns (t: Usize)
      ensures t == ticks
    {
      t := ticks;
    }

    /** `interrupts::are_enabled()`. */
    method AreEnabled() returns (enabled: bool)
      ensures enabled == interruptsEnabled
    {
      enabled := interruptsEnabled;
    }

    /** `interrupts::disable()`. */
    method Disable()
      requires Valid()
      modifies this
      ensures Valid() && !interruptsEnabled
      ensures ticks == old(ticks) && trace == old(trace) + [Cli]
    {
      interruptsEnabled := false;
      trace := trace + [Cli];
      FlagAfterAppend(bootFlag, old(trace), [Cli]);
      TickCountAppend(old(trace), [Cli]);
      assert [Cli][..0] == [];
    }

    /** `interrupts::enable()`. */
    method Enable()
      requires Valid()
      modifies this
      ensures Valid() && interruptsEnabled
      ensures ticks == old(ticks) && trace == old(trace) + [Sti]
    {
      interruptsEnabled := true;
      trace := trace + [Sti];
      FlagAfterAppend(bootFlag, old(trace), [Sti]);
      TickCountAppend(old(trace), [Sti]);
      assert [Sti][..0] == [];
    }

    /** `Port::<u8>::write`. */
    method OutByte(port: U16, value: U8)
      requires Valid()
      modifies this
      ensures Valid()
      ensures interruptsEnabled == old(interruptsEnabled) && ticks == old(ticks)
      ensures trace == old(trace) + [Out(port, value)]
    {
      trace := trace + [Out(port, value)];
      FlagAfterAppend(bootFlag, old(trace), [Out(port, value)]);
      TickCountAppend(old(trace), [Out(port, value)]);
      assert [Out(port, value)][..0] == [];
    }

    /**
     * `handle_timer_interrupt`: add one to `PIT_TICKS` (wrapping, as
     * `fetch_add` does), then acknowledge the timer's vector, exactly once.
     */
    method HandleTimerInterrupt()
      requires Valid()
      modifies this
      ensures Valid() && interruptsEnabled == old(interruptsEnabled)
      ensures ticks == (old(ticks) + 1) % USIZE_MODULUS
      ensures trace == old(trace) + [TickIncrement, EndOfInterrupt(Pic.AsU8(Pic.Timer))]
    {
      ticks := (ticks + 1) % USIZE_MODULUS;
      trace := trace + [TickIncrement];
      FlagAfterAppend(bootFlag, old(trace), [TickIncrement]);
      TickCountAppend(old(trace), [TickIncrement]);
      assert [TickIncrement][..0] == [];
      ModAddAssoc(bootTicks + TickCount(old(trace)), 1);
      ghost var mid := trace;
      trace := trace + [EndOfInterrupt(Pic.AsU8(Pic.Timer))];
      FlagAfterAppend(bootFlag, mid, [EndOfInterrupt(Pic.AsU8(Pic.Timer))]);
      TickCountAppend(mid, [EndOfInterrupt(Pic.AsU8(Pic.Timer))]);
      assert [EndOfInterrupt(Pic.AsU8(Pic.Timer))][..0] == [];
    }

    /**
     * `interrupts::enable_and_hlt()`: `sti; hlt`. The interrupt that ends the
     * halt is a parameter; when it is the timer's, its handler runs.
     */
    method EnableAndHalt(timerWakes: bool)
      requires Valid()
      modifies this
      ensures Valid() && interruptsEnabled
      ensures ticks == if timerWakes then (old(ticks) + 1) % USIZE_MODULUS else old(ticks)
      ensures trace == old(trace) + [Sti, Hlt] +
                (if timerWakes then [TickIncrement, EndOfInterrupt(Pic.AsU8(Pic.Timer))] else [])
    {
      Enable();
      trace := trace + [Hlt];
      FlagAfterAppend(bootFlag, old(trace) + [Sti], [Hlt]);
      TickCountAppend(old(trace) + [Sti], [Hlt]);
      assert [Hlt][..0] == [];
      if timerWakes {
        HandleTimerInterrupt();
      }
    }

    /** `halt`: enable-and-halt once, then disable again if interrupts were disabled before. */
    method Halt(timerWakes: bool)
      requires Valid()
      modifies this
      ensures Valid() && interruptsEnabled == old(interruptsEnabled)
      ensures ticks == if timerWakes then (old(ticks) + 1) % USIZE_MODULUS else old(ticks)
      ensures trace == old(trace) + HaltTrace(old(interruptsEnabled), timerWakes)
    {
      var enabled := AreEnabled();
      var disabled := !enabled;
      EnableAndHalt(timerWakes);
      if disabled {
        Disable();
      }
    }

    /**
     * `set_pit_frequency_divider(divider, channel)`, inside
     * `without_interrupts`: disable interrupts if they were enabled, write
     * the command and the two divider bytes, and re-enable them if they were.
     */
    method SetPitFrequencyDivider(divider: U16, channel: U8)
      requires Valid()
      modifies this
      ensures Valid() && interruptsEnabled == old(interruptsEnabled) && ticks == old(ticks)
      ensures trace == old(trace) + PitProgramTrace(divider, channel, old(interruptsEnabled))
    {
      var saved := AreEnabled();
      if saved {
        Disable();
      }
      var bytes := LeBytes(divider);
      var cmdPort: U16 := PIT_COMMAND_PORT;
      var dataPort: U16 := PIT_CHANNEL0_PORT + channel;
      OutByte(cmdPort, PitCommand(channel));
      OutByte(dataPort, bytes.0);
      OutByte(dataPort, bytes.1);
      if saved {
        Enable();
      }
    }

    /** `init`: program channel 0 with the divider chosen from `PIT_DIVIDER`. */
    method Init()
      requires Valid()
      modifies this
      ensures Valid() && interruptsEnabled == old(interruptsEnabled) && ticks == old(ticks)
      ensures trace == old(trace) + PitProgramTrace(InitDivider(PIT_DIVIDER), 0, old(interruptsEnabled))
    {
      var divider := InitDivider(PIT_DIVIDER);
      var channel := 0;
      SetPitFrequencyDivider(divider, channel);
    }
  }
}
