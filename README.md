# aaos display and timer core in Dafny

This project models the display and timer part of the aaos x86-64 hobby kernel and proves properties of the model.

- **VGA text-mode writer** (`src/sys/vga.rs`). A 25×80 grid of (byte, attribute) cells, together with the writer position, the hardware-cursor position and the current attribute.
  - The writer handles printable bytes, backspace, and newline. A full row wraps lazily, on the next printable byte.
  - On the last row, a newline scrolls the screen.
  - Rows and the whole screen can be cleared.
  - An SGR control sequence (`ESC [ … m`, section 8.3.117 of ECMA-48) sets the colour. It also accepts the bright codes 90–97 and 100–107.
  - The model includes the CRTC cursor-location arithmetic and the glyph copy into VGA plane 2.
- **Timer** (`src/sys/time.rs`). The `PIT_TICKS` counter, advanced only by the timer interrupt handler, which then acknowledges the interrupt. `halt`, which saves and restores the interrupt flag. The Intel 8254 programming sequence and the divider chosen at boot.
- **Interrupt vectors** (`src/sys/pic.rs`). The offsets of the chained 8259A controllers and the `Irq` discriminants.
- **Font descriptor** (`src/sys/vga/font.rs`) and the **`write_bytes`** blit of `src/main.rs` and `src/pretty.rs`.

Files and modules:

- `ints.dfy` (`Ints`): the machine integer types.
- `pic.dfy` (`Pic`): interrupt vectors.
- `vga_color.dfy` (`VgaColor`): colours and attribute bytes.
- `vga_font.dfy` (`VgaFont`): fonts and the glyph layout.
- `vga_screen.dfy` (`VgaScreen`): the writer as a state machine on values (`Screen`, `PutByte`, `NewLine`, `Sgr`, …). It also holds the lemmas about that state machine.
- `vga_writer.dfy` (`Vga`): the class `Writer`, which updates an `array2` buffer in place. Each method except `SetFont`, whose contract is about VGA plane 2, is proved to take `old(State())` to the state the matching `VgaScreen` function gives.
- `time.dfy` (`Time`): the class `Machine`, which holds the interrupt flag, the tick counter and a trace of effects, plus the lemmas about traces. Its invariant ties the flag to the `cli`/`sti` events of the trace and the counter to the number of `TickIncrement` events, modulo 2^64.
- `kernel_main.dfy` (`KernelMain`) and `pretty.dfy` (`Pretty`): `write_bytes`.

Externals and how they are represented:

- **Port I/O.** In the timer model every port write is an `Out` event in `Machine.trace`. So are `cli`, `sti`, `hlt`, the tick increment and the end-of-interrupt. In the VGA model the port writes are left out, and only the values they carry are computed (`CursorBytes`).
- **Interrupts.** The interrupt that ends a `hlt` is a parameter of `Halt`.
- **The embedded font file.** It is a parameter of `IbmBios`.
- **Concurrency.** Everything is sequential. The spin locks, `lazy_static` and `without_interrupts` around the writer are not modelled.

The tick counter is not strictly monotonic: `fetch_add` wraps at 2^64, and `TicksAfter` wraps with it. `TicksAfter` is the counter after a run of interrupts; `IrqTraceTicks` connects it to the trace those interrupts leave in a `Machine`.

## Model

| member | source | states |
|---|---|---|
| `VgaColor.Value` | src/sys/vga.rs:36-56 | every colour's discriminant is below 16 (one nibble) |
| `VgaColor.OfValue` | src/sys/vga.rs:39-56 | decodes a nibble back to the colour with that discriminant |
| `VgaColor.OfValueOfColor` | src/sys/vga.rs:39-56 | decoding a colour's discriminant gives back that colour (the discriminants are distinct) |
| `VgaColor.FromAnsi` | src/sys/vga.rs:60-85 | 30–37 and 90–97 map to the VGA colour whose red/green/blue bits are the ECMA-48 colour index's bits reordered (plus intensity for 90–97); 30 and every other code give Black |
| `VgaColor.NewCharColor` | src/sys/vga.rs:94-96 | the attribute byte's high nibble is the background's value, its low nibble the foreground's |
| `VgaColor.CharColorRoundTrip` | src/sys/vga.rs:94-96 | decoding the attribute gives back foreground and background, so distinct colour pairs give distinct bytes |
| `VgaScreen.ClearRow` | src/sys/vga.rs:175-183 | the row becomes blanks in the current colour, every other row, the writer, the cursor and the colour are kept, and the grid stays 25×80 |
| `VgaScreen.ClearScreen` | src/sys/vga.rs:185-189 | every row becomes blanks in the current colour; the writer, the cursor and the colour are kept, and the grid stays 25×80 |
| `VgaScreen.NewLine` | src/sys/vga.rs:158-173 | after `new_line` the writer is at column 0, the cursor is at the writer position, the colour is unchanged, and the bounds hold |
| `VgaScreen.PutByte` | src/sys/vga.rs:129-156 | `write_byte` keeps `row < 25`, `col <= 80` and the 25×80 shape, so every index it uses is in range; it never changes the colour |
| `VgaScreen.PutBytes` | src/sys/vga.rs:129-156 | the same invariant over any sequence of bytes |
| `VgaScreen.PrintChar` | src/sys/vga.rs:255-257 | printing a character (truncated to its low byte) keeps the bounds |
| `VgaScreen.PutPrintable` | src/sys/vga.rs:144-154 | a printable byte with `col < 80` is stored at (row, col) in the current colour, `col` goes up by one, and no other cell, the row or the cursor changes |
| `VgaScreen.PutPrintableWraps` | src/sys/vga.rs:145-147 | a printable byte at `col >= 80` acts as `new_line` followed by the same byte at column 0 |
| `VgaScreen.PutBackspace` | src/sys/vga.rs:132-143 | backspace at `col > 0` decrements `col` and blanks exactly that cell in the current colour; at `col == 0` the state is unchanged |
| `VgaScreen.NewLineMovesDown` | src/sys/vga.rs:159-160 | below the last row `new_line` moves down one row and leaves the buffer untouched |
| `VgaScreen.NewLineScrolls` | src/sys/vga.rs:161-170 | on row 24 new row r is old row r+1 for r < 24, row 24 becomes blanks in the current colour, and the writer stays on row 24 |
| `VgaScreen.PutBytesAppend` | src/sys/vga.rs:129-156 | writing a + b equals writing a and then b |
| `VgaScreen.PutPrintableRun` | src/sys/vga.rs:144-154 | printable bytes that fit on the row land at (row, col+i), the writer ends \|text\| columns on, and every other cell is unchanged |
| `VgaScreen.PrintlnScenario` | src/sys/vga.rs:374-386 | with the writer on row 22, 23 or 24, writing newline, up to 80 printable bytes and newline leaves byte i at row 23, column i |
| `VgaScreen.PutBytesKeepsBounds` | src/sys/vga.rs:129-173 | after any bytes the cursor row is in the buffer or where it was before |
| `VgaScreen.CursorBytes` | src/sys/vga.rs:228-230 | the low and high bytes sent to the CRTC recombine to the location `(y*80+x) mod 2^16` |
| `VgaScreen.CursorLocationDecodes` | src/sys/vga.rs:229 | for every writer position the location is not truncated and decodes back to (x, y); column 80 shows as column 0 of the next row |
| `VgaScreen.SgrForegroundLastWins` | src/sys/vga.rs:270-281 | the last parameter that sets or resets the foreground decides it: a code from 30–37 or 90–97 gives `from_ansi(p)` |
| `VgaScreen.SgrForegroundDefault` | src/sys/vga.rs:267-276 | with no foreground code after the last reset (or at all), the foreground is LightGray, whatever the writer's colour was |
| `VgaScreen.SgrBackgroundLastWins` | src/sys/vga.rs:270-281 | the last background-deciding parameter from 40–47 or 100–107 gives `from_ansi(p-10)` |
| `VgaScreen.SgrBackgroundDefault` | src/sys/vga.rs:268-276 | with no background code after the last reset (or at all), the background is Black |
| `VgaScreen.CsiDispatchColor` | src/sys/vga.rs:263-296 | for `'m'` the new colour depends only on the parameters and nothing else changes; any other final character leaves the state unchanged |
| `VgaScreen.SetColor` | src/sys/vga.rs:191-193 | only the colour changes; the cells, writer and cursor are kept |
| `VgaScreen.SetCursorPosition` | src/sys/vga.rs:243-246 | only the cursor moves, to a location equal to that of (x, y) |
| `VgaScreen.CursorAtWriter` | src/sys/vga.rs:248-251 | only the cursor moves, to the location of the writer position |
| `VgaScreen.CursorLocation` | src/sys/vga.rs:229 | `y*80+x` truncated to `u16`: congruent to it mod 2^16, and equal to it for every writer position |
| `VgaScreen.Sgr` | src/sys/vga.rs:266-284 | the foreground is LightGray or `from_ansi(p)` of one of the foreground codes given; the background is Black or `from_ansi(p-10)` of one of the background codes given |
| `VgaScreen.CsiDispatch` | src/sys/vga.rs:263-296 | for `'m'` the new attribute decodes to `Sgr(params)`; any other final character changes nothing; the cells, writer and cursor are always kept |
| `Vga.Writer.constructor` | src/sys/vga.rs:28-33 | the writer starts at (0,0) with the cursor at (0,0), LightGray on Black, over the given buffer |
| `Vga.Writer.WriteByte` | src/sys/vga.rs:129-156 | the in-place `write_byte` takes the writer from its state to `PutByte` of it |
| `Vga.Writer.NewLine` | src/sys/vga.rs:158-173 | the in-place scroll loops and `clear_row` give exactly `VgaScreen.NewLine` |
| `Vga.Writer.ClearRow` | src/sys/vga.rs:175-183 | the column loop gives exactly `VgaScreen.ClearRow` |
| `Vga.Writer.ClearScreen` | src/sys/vga.rs:185-189 | clearing rows 0..24 in turn gives exactly `VgaScreen.ClearScreen` |
| `Vga.Writer.SetColor` | src/sys/vga.rs:191-193 | only the colour changes |
| `Vga.Writer.SetCursorPosition` | src/sys/vga.rs:243-246 | only the cursor position changes |
| `Vga.Writer.CursorAtWriter` | src/sys/vga.rs:248-251 | the cursor moves to the writer position and nothing else changes |
| `Vga.Writer.SetFont` | src/sys/vga.rs:210-216 | plane offset 32*i+j holds `data[i*height+j]` for every glyph i and every row j below 32; offsets the loop never writes keep their bytes |
| `Vga.Writer.Print` | src/sys/vga.rs:255-257 | `print(c)` is `write_byte(c as u8)` |
| `Vga.Writer.Execute` | src/sys/vga.rs:259-261 | `execute(b)` is `write_byte(b)` |
| `Vga.Writer.CsiDispatch` | src/sys/vga.rs:263-296 | the parameter loop computes `Sgr(params)` starting from the defaults and sets that colour for `'m'`; other final characters change nothing |
| `VgaFont.FromDosF16Shape` | src/sys/vga/font.rs:11-17 | `from_dos_f16` gives 256 glyphs of height 16 and keeps the data unchanged; the copy loop's reads lie inside the data exactly when the file has at least 4096 bytes |
| `VgaFont.FromDosF16` | src/sys/vga/font.rs:11-17 | 256 glyphs of height 16 over the data unchanged; complete exactly when the data has at least 4096 bytes |
| `VgaFont.IbmBios` | src/sys/vga/font.rs:2 | the BIOS font is an 8x16 font of 256 glyphs over the file; a 4096-byte file holds every glyph row read |
| `VgaFont.FontOffsetInRange` | src/sys/vga.rs:210-214 | every offset `j + i*height` that the copy loop reads is inside a complete font's data |
| `VgaFont.PlaneOffsetInjective` | src/sys/vga.rs:212 | for rows below 32, plane offset `j + i*32` decodes to (i, j), so no two rows of the copy collide |
| `VgaFont.IbmBiosLayout` | src/sys/vga/font.rs:2 | for `IBM_BIOS`, glyph i row j is read from `16*i+j` (below 4096) and written to `32*i+j` |
| `VgaFont.IbmBiosCoversFile` | src/sys/vga/font.rs:2 | every byte of a 4096-byte font file is read, as row `o % 16` of glyph `o / 16` |
| `Pic.AsU8` | src/sys/pic.rs:10-20 | each IRQ's vector is the vector its PC/AT line (timer 0, keyboard 1, RTC 8) gets from the chained controllers, within [32, 48) |
| `Pic.AsUsize` | src/sys/pic.rs:23-25 | the widened vector is the same PC/AT line vector, one the chained controllers handle |
| `Pic.ChipOf` | src/sys/pic.rs:28-29 | a vector is routed to a controller exactly when it is in [PIC_1_OFFSET, PIC_2_OFFSET + 8) |
| `Pic.OffsetsDisjoint` | src/sys/pic.rs:4-5 | PIC_2_OFFSET = PIC_1_OFFSET + 8 = 40; the master and slave ranges are disjoint and above the CPU exceptions 0–31 |
| `Pic.IrqVectors` | src/sys/pic.rs:10-13 | Timer = 32 and Keyboard = 33 are master lines; Rtc = 40 = PIC_2_OFFSET is the slave's first line |
| `Pic.AsUsizeInjective` | src/sys/pic.rs:18-25 | `as_usize` widens `as_u8`, and distinct IRQs have distinct vectors |
| `Time.PortWrites` | src/sys/time.rs:44-48 | the filtered trace holds only port writes |
| `Time.FlagAfterAppend` | src/sys/time.rs:19-25 | the interrupt flag after a + b is the flag after b, started from the flag after a |
| `Time.PitCommand` | src/sys/time.rs:41-45 | the command byte `(channel<<6)\|(3<<4)\|6` on `u8` equals `(channel mod 4)*64 + 0x36` |
| `Time.PitCommandFields` | src/sys/time.rs:41-45 | the command selects the channel, low-then-high byte access, mode 3 (square wave) and binary counting; for channel 0 it is 0x36 |
| `Time.LeBytes` | src/sys/time.rs:38 | the two bytes sent recombine to the divider: `lo + 256*hi == divider` |
| `Time.EffectiveDivisor` | src/sys/time.rs:34-35 | every divisor lies in 1..65536, 0 standing for 65536 |
| `Time.EffectiveDivisorRoundTrip` | src/sys/time.rs:34-35 | reload values and divisors 1..65536 correspond one to one |
| `Time.InitDivider` | src/sys/time.rs:58-63 | 1 ≤ PIT_DIVIDER < 65535 gives exactly that divisor; PIT_DIVIDER ≥ 65535 gives 0 (divide by 65536) |
| `Time.PitProgramTrace` | src/sys/time.rs:36-50 | the effects of `set_pit_frequency_divider`: three port writes, only to 0x43 and the channel's data port, bracketed by `cli`/`sti` exactly when interrupts were enabled |
| `Time.PitProgramSequence` | src/sys/time.rs:36-50 | the port writes are command to 0x43, then low and high divider bytes to 0x40+channel; all happen with interrupts disabled, and the flag is restored |
| `Time.InitProgramsChannel0` | src/sys/time.rs:58-66 | `init` writes 0x36 to 0x43, then 0xA9 and 0x04 (the bytes of 1193) to 0x40 |
| `Time.HaltTrace` | src/sys/time.rs:19-25 | `halt` starts with `sti; hlt` and halts once; a tick is recorded exactly when the timer ends the halt, and a `cli` exactly when interrupts were disabled before |
| `Time.HaltTicks` | src/sys/time.rs:19-25 | a halt adds one to `PIT_TICKS` exactly when the timer ends it |
| `Time.HaltRestoresFlag` | src/sys/time.rs:19-25 | `halt` has interrupts enabled at the `hlt` and ends with the flag it started with |
| `Time.TicksAfter` | src/sys/time.rs:52-55 | without a timer interrupt the counter keeps its value |
| `Time.IrqTraceTicks` | src/sys/time.rs:52-55 | servicing a run of interrupts records one increment per timer interrupt, so the `Machine` invariant gives `TicksAfter` of the counter |
| `Time.TickCountAppend` | src/sys/time.rs:52-53 | the number of recorded increments splits over concatenated traces |
| `Time.TicksAfterCount` | src/sys/time.rs:13-17 | after any interleaving of interrupts, the ticks are the start value plus the number of timer interrupts, mod 2^64 |
| `Time.TicksMonotone` | src/sys/time.rs:52-53 | without wrap-around the ticks grow by exactly the number of timer interrupts |
| `Time.Machine.constructor` | src/sys/time.rs:13 | `PIT_TICKS` starts at 0 |
| `Time.Machine.Ticks` | src/sys/time.rs:15-17 | `ticks()` returns the counter |
| `Time.Machine.AreEnabled` | src/sys/time.rs:20 | returns the current interrupt flag and changes nothing |
| `Time.Machine.Disable` | src/sys/time.rs:22-24 | clears the flag and records one `cli`; the ticks are unchanged |
| `Time.Machine.Enable` | src/sys/time.rs:21 | sets the flag and records one `sti`; the ticks are unchanged |
| `Time.Machine.OutByte` | src/sys/time.rs:45-47 | records one port write of that value to that port; flag and ticks are unchanged |
| `Time.Machine.EnableAndHalt` | src/sys/time.rs:21 | records `sti; hlt` (and the timer handler if the timer ends the halt) and leaves interrupts enabled |
| `Time.Machine.HandleTimerInterrupt` | src/sys/time.rs:52-56 | the counter goes up by one (mod 2^64), then exactly one end-of-interrupt for vector 32 follows, and the flag is untouched |
| `Time.Machine.Halt` | src/sys/time.rs:19-25 | the trace is `sti; hlt`, then the timer handler if the timer woke the CPU, then `cli` only if interrupts were disabled before; the flag is restored |
| `Time.Machine.SetPitFrequencyDivider` | src/sys/time.rs:36-50 | the trace grows by exactly `PitProgramTrace(divider, channel, old flag)`; flag and ticks are unchanged |
| `Time.Machine.Init` | src/sys/time.rs:58-66 | channel 0 is programmed with `InitDivider(1193)` |
| `KernelMain.WriteBytes` | src/main.rs:19-31 | cell (row, col+i) holds `ScreenChar(bytes[i], color)`, and every cell outside row × [col, col+\|bytes\|) is unchanged (so empty `bytes` changes nothing) |
| `Pretty.WriteBytes` | src/pretty.rs:3-13 | the same contract as `KernelMain.WriteBytes` |

## Left out

- The `vte` escape-sequence parser, `Writer::write_str` and `print_fmt` (src/sys/vga.rs:299-348). The parser is a foreign state machine. Only the `Perform` callbacks it drives are modelled. `PrintlnScenario` therefore runs `write_byte` on the bytes directly, which matches what the parser does for newlines and printable ASCII.
- Raw port I/O for the display. The sequencer and graphics register writes of `set_font` are constants. `set_blink` (src/sys/vga.rs:312-322) does a read-modify-write of bit 3 (blink enable) of the attribute mode control register; that is left out. The bytes of the CRTC writes of `write_cursor` are computed by `CursorBytes`.
- `vga::init` (src/sys/vga.rs:330-336): it runs `clear_screen`, `set_blink(false)` and `set_font(&IBM_BIOS)`, in that order. Only the first and last steps are modelled, as `Writer.ClearScreen` and `Writer.SetFont`; the sequence itself and `set_blink` are not. `vga::set_font` is a locking wrapper.
- `pic::init` (src/sys/pic.rs:31-34): it initialises the controllers through `pic8259`, then turns CPU interrupts on. That flag is only `Machine`'s constructor argument here. `ChainedPics` is a foreign crate, so its command-port writes for end-of-interrupt appear only as `EndOfInterrupt(vector)`.
- The timer handler acknowledges `crate::sys::idt::Irq::Timer` (src/sys/time.rs:6 and 55), a second enum in src/sys/idt.rs declared as `Timer = PIC_1_OFFSET, Keyboard` without `Rtc`. The model uses `Pic.AsU8(Pic.Timer)` instead; both give vector 32. src/sys/idt.rs is not part of this model.
- `sleep`, `uptime`, `realtime`, `PIT_FREQUENCY` and `PIT_INTERVAL_SECS`: they use floating point.
- The keyboard and RTC interrupt handlers (src/sys/idt.rs, src/sys/clock.rs). `TicksAfter` assumes only that they do not touch `PIT_TICKS`, which they do not.
- The memory manager, heap allocator, GDT/TSS, IDT construction, exception handlers and the demo code in src/main.rs. Their sources are not part of this model, or they are diagnostic output.
- `Vga.Writer.SetFont`: it requires that plane 2 is large enough for every offset written. The source writes through a raw pointer without checking, so a write out of range is undefined behaviour, not a panic. It also requires `Complete(font)`, which excludes the slice-index panic of src/sys/vga.rs:213-214 on a font whose data is shorter than `size*height`; that panic comes after the rows that fit have been written, and it is not modelled. `BIOS_D.F16` is taken to be 4096 bytes (`FromDosF16Shape`), so `IBM_BIOS` is complete.
- `KernelMain.WriteBytes`: it requires `row < 25` and `col + |bytes| <= 80`. Out of range, the source panics after writing the bytes that fit; those partial writes are not modelled.
- `Pretty.WriteBytes`: it requires `row < 25` and `col + |bytes| <= 80`. Out of range, the indexing at src/pretty.rs:11 panics after writing the bytes that fit; those partial writes are not modelled.
- `Time.Machine.Halt`: only a timer interrupt is modelled as the event that ends the `hlt`. The CPU clearing the flag on interrupt entry, and `iretq` restoring it, are not traced.
- `Time.PitCommandFields`: it is stated for channels 0–2. Channel 3 gives select bits 0b11, the read-back command. From channel 4 on, `channel << 6` on `u8` drops the high bits, so the command aliases channel `channel % 4`, and the data port 0x40+channel is not a PIT port. Only channel 0 is ever used.
- `Time.InitDivider`: the test `PIT_DIVIDER < u16::MAX` also maps 65535, which fits in a `u16`, to 0 (a divisor of 65536). This is stated and not corrected. It does not matter for the configured value 1193.
