/**
 * The VGA text-mode writer of src/sys/vga.rs as a state machine on values: a
 * 25x80 grid of (byte, attribute) cells, the writer position, the hardware
 * cursor position and the current attribute. The class `Vga.Writer` updates
 * an array in place and is proved to follow these functions step by step.
 */
module VgaScreen {
  import opened Ints
  import opened VgaColor

  const BUFFER_HEIGHT: nat := 25
  const BUFFER_WIDTH: nat := 80
  const LAST_ROW: nat := BUFFER_HEIGHT - 1

  /** Default foreground and background (`FG`, `BG`). */
  const FG: Color := LightGray
  const BG: Color := Black

  const BACKSPACE: U8 := 0x08
  const NEWLINE: U8 := 0x0A
  const SPACE: U8 := 0x20

  /** `ScreenChar`: one cell of the text buffer. */
  datatype ScreenChar = ScreenChar(ascii: U8, color: CharColor)

  /**
   * A writer's whole observable state: the buffer rows, the writer position
   * `(col, row)`, the cursor position `(cursorCol, cursorRow)` and the colour.
   */
  datatype Screen = Screen(
    cells: seq<seq<ScreenChar>>,
    col: nat, row: nat,
    cursorCol: nat, cursorRow: nat,
    color: CharColor)

  /**
   * The bounds every buffer access relies on. `col` may equal the width: the
   * writer wraps lazily, on the next printable byte.
   */
  predicate WellFormed(s: Screen)
  {
    |s.cells| == BUFFER_HEIGHT &&
    (forall r :: 0 <= r < BUFFER_HEIGHT ==> |s.cells[r]| == BUFFER_WIDTH) &&
    s.row < BUFFER_HEIGHT && s.col <= BUFFER_WIDTH
  }

  /** A space in the given colour, what erasing writes. */
  function Blank(color: CharColor): ScreenChar
  {
    ScreenChar(SPACE, color)
  }

  function BlankRow(color: CharColor): (line: seq<ScreenChar>)
    ensures |line| == BUFFER_WIDTH
    ensures forall c :: 0 <= c < BUFFER_WIDTH ==> line[c] == Blank(color)
  {
    seq(BUFFER_WIDTH, _ => Blank(color))
  }

  /** The grid with one cell replaced. */
  function SetCell(cells: seq<seq<ScreenChar>>, r: nat, c: nat, x: ScreenChar): seq<seq<ScreenChar>>
    requires r < |cells| && c < |cells[r]|
  {
    cells[r := cells[r][c := x]]
  }

  /** `cursor_at_writer`: the cursor moves to the writer position. */
  function CursorAtWriter(s: Screen): (t: Screen)
    ensures WellFormed(t) <==> WellFormed(s)
    ensures t.cells == s.cells && t.col == s.col && t.row == s.row && t.color == s.color
    ensures CursorLocation(t.cursorCol, t.cursorRow) == CursorLocation(s.col, s.row)
  {
    s.(cursorCol := s.col, cursorRow := s.row)
  }

  /** `set_cursor_position(x, y)`: only the cursor moves. */
  function SetCursorPosition(s: Screen, x: nat, y: nat): (t: Screen)
    ensures WellFormed(t) <==> WellFormed(s)
    ensures t.cells == s.cells && t.col == s.col && t.row == s.row && t.color == s.color
    ensures CursorLocation(t.cursorCol, t.cursorRow) == CursorLocation(x, y)
  {
    s.(cursorCol := x, cursorRow := y)
  }

  /** `set_color`: only the colour of later writes changes. */
  function SetColor(s: Screen, color: CharColor): (t: Screen)
    ensures WellFormed(t) <==> WellFormed(s)
    ensures t.cells == s.cells && t.col == s.col && t.row == s.row
    ensures t.cursorCol == s.cursorCol && t.cursorRow == s.cursorRow && t.color == color
  {
    s.(color := color)
  }

  /** `clear_row(row)`: the row becomes blanks in the current colour. */
  function ClearRow(s: Screen, row: nat): (t: Screen)
    requires WellFormed(s) && row < BUFFER_HEIGHT
    ensures WellFormed(t)
    ensures t.cells[row] == BlankRow(s.color)
    ensures forall r :: 0 <= r < BUFFER_HEIGHT && r != row ==> t.cells[r] == s.cells[r]
    ensures t.col == s.col && t.row == s.row && t.cursorCol == s.cursorCol && t.cursorRow == s.cursorRow && t.color == s.color
  {
    s.(cells := s.cells[row := BlankRow(s.color)])
  }

  /** `clear_screen`: every row cleared; nothing but the cells changes. */
  function ClearScreen(s: Screen): (t: Screen)
    requires WellFormed(s)
    ensures WellFormed(t)
    ensures forall r :: 0 <= r < BUFFER_HEIGHT ==> t.cells[r] == BlankRow(s.color)
    ensures t.col == s.col && t.row == s.row && t.cursorCol == s.cursorCol && t.cursorRow == s.cursorRow && t.color == s.color
  {
    s.(cells := seq(BUFFER_HEIGHT, _ => BlankRow(s.color)))
  }

  /**
   * `new_line`: below the last row the writer moves down; on the last row
   * every row moves up by one and the last row is cleared. Either way the
   * writer returns to column 0 and the cursor follows it.
   */
  function NewLine(s: Screen): (t: Screen)
    requires WellFormed(s)
    ensures WellFormed(t)
    ensures t.col == 0 && t.cursorCol == t.col && t.cursorRow == t.row
    ensures t.color == s.color
  {
    if s.row < LAST_ROW then
      CursorAtWriter(s.(row := s.row + 1, col := 0))
    else
      CursorAtWriter(ClearRow(s.(cells := s.cells[1..] + [s.cells[LAST_ROW]]), s.row).(col := 0))
  }

  /**
   * `write_byte`: a newline starts a new line; a backspace erases the cell
   * before the writer, if any; every other byte is stored at the writer
   * position, after a new line when the row is full.
   */
  function PutByte(s: Screen, b: U8): (t: Screen)
    requires WellFormed(s)
    ensures WellFormed(t)
    ensures t.color == s.color
  {
    if b == NEWLINE then
      NewLine(s)
    else if b == BACKSPACE then
      if s.col > 0 then
        s.(col := s.col - 1, cells := SetCell(s.cells, s.row, s.col - 1, Blank(s.color)))
      else
        s
    else
      var u := if s.col >= BUFFER_WIDTH then NewLine(s) else s;
      u.(cells := SetCell(u.cells, u.row, u.col, ScreenChar(b, u.color)), col := u.col + 1)
  }

  /** `write_byte` applied to each byte in turn. */
  function PutBytes(s: Screen, bytes: seq<U8>): (t: Screen)
    requires WellFormed(s)
    ensures WellFormed(t)
    ensures t.color == s.color
    decreases |bytes|
  {
    if bytes == [] then s else PutBytes(PutByte(s, bytes[0]), bytes[1..])
  }

  /** `Perform::print`: a character is truncated to its low byte (`c as u8`). */
  function PrintChar(s: Screen, c: char): (t: Screen)
    requires WellFormed(s)
    ensures WellFormed(t)
  {
    PutByte(s, (c as int) % 0x100)
  }

  /** A byte `write_byte` stores as a glyph rather than interpreting. */
  predicate Printable(b: U8)
  {
    b != NEWLINE && b != BACKSPACE
  }

  // ---------------------------------------------------------------------------
  // write_byte

  /**
   * A printable byte with room on the row is stored at the writer position
   * in the current colour and the writer advances one column; no other cell,
   * the row, the cursor and the colour stay as they were.
   */
  lemma PutPrintable(s: Screen, b: U8)
    requires WellFormed(s) && Printable(b) && s.col < BUFFER_WIDTH
    ensures PutByte(s, b).cells[s.row][s.col] == ScreenChar(b, s.color)
    ensures forall r, c :: 0 <= r < BUFFER_HEIGHT && 0 <= c < BUFFER_WIDTH && (r, c) != (s.row, s.col) ==>
              PutByte(s, b).cells[r][c] == s.cells[r][c]
    ensures PutByte(s, b).col == s.col + 1 && PutByte(s, b).row == s.row
    ensures PutByte(s, b).cursorCol == s.cursorCol && PutByte(s, b).cursorRow == s.cursorRow
  {
  }

  /** A printable byte on a full row first performs `new_line`, which leaves room for it. */
  lemma PutPrintableWraps(s: Screen, b: U8)
    requires WellFormed(s) && Printable(b) && s.col >= BUFFER_WIDTH
    ensures NewLine(s).col == 0
    ensures PutByte(s, b) == PutByte(NewLine(s), b)
  {
  }

  /**
   * Backspace moves the writer back one column and blanks exactly that cell;
   * at column 0 it changes nothing.
   */
  lemma PutBackspace(s: Screen)
    requires WellFormed(s)
    ensures s.col == 0 ==> PutByte(s, BACKSPACE) == s
    ensures s.col > 0 ==>
              var t := PutByte(s, BACKSPACE);
              t.col == s.col - 1 && t.row == s.row &&
              t.cells[s.row][s.col - 1] == Blank(s.color) &&
              (forall r, c :: 0 <= r < BUFFER_HEIGHT && 0 <= c < BUFFER_WIDTH && (r, c) != (s.row, s.col - 1) ==>
                 t.cells[r][c] == s.cells[r][c]) &&
              t.cursorCol == s.cursorCol && t.cursorRow == s.cursorRow
  {
  }

  // ---------------------------------------------------------------------------
  // new_line

  /** Below the last row `new_line` moves down one row and leaves the buffer untouched. */
  lemma NewLineMovesDown(s: Screen)
    requires WellFormed(s) && s.row < LAST_ROW
    ensures NewLine(s).row == s.row + 1
    ensures NewLine(s).cells == s.cells
  {
  }

  /**
   * On the last row `new_line` scrolls: row `r` takes the old row `r + 1`,
   * the last row becomes blanks in the current colour, and the writer stays
   * on the last row.
   */
  lemma NewLineScrolls(s: Screen)
    requires WellFormed(s) && s.row == LAST_ROW
    ensures NewLine(s).row == LAST_ROW
    ensures forall r, c :: 0 <= r < LAST_ROW && 0 <= c < BUFFER_WIDTH ==> NewLine(s).cells[r][c] == s.cells[r + 1][c]
    ensures forall c :: 0 <= c < BUFFER_WIDTH ==> NewLine(s).cells[LAST_ROW][c] == Blank(s.color)
  {
  }

  // ---------------------------------------------------------------------------
  // Runs of bytes

  lemma {:induction false} PutBytesAppend(s: Screen, a: seq<U8>, b: seq<U8>)
    requires WellFormed(s)
    ensures PutBytes(s, a + b) == PutBytes(PutBytes(s, a), b)
    decreases |a|
  {
    if a == [] {
      assert a + b == b;
    } else {
      assert (a + b)[1..] == a[1..] + b;
      PutBytesAppend(PutByte(s, a[0]), a[1..], b);
    }
  }

  /**
   * Printable bytes that fit on the writer's row land side by side from the
   * writer position, with no wrap: cell `(row, col + i)` holds byte `i`,
   * every other cell is unchanged and the writer ends `|text|` columns on.
   */
  lemma {:induction false} PutPrintableRun(s: Screen, text: seq<U8>)
    requires WellFormed(s)
    requires forall i :: 0 <= i < |text| ==> Printable(text[i])
    requires s.col + |text| <= BUFFER_WIDTH
    ensures PutBytes(s, text).row == s.row && PutBytes(s, text).col == s.col + |text|
    ensures forall i :: 0 <= i < |text| ==> PutBytes(s, text).cells[s.row][s.col + i] == ScreenChar(text[i], s.color)
    ensures forall r, c :: 0 <= r < BUFFER_HEIGHT && 0 <= c < BUFFER_WIDTH && !(r == s.row && s.col <= c < s.col + |text|) ==>
              PutBytes(s, text).cells[r][c] == s.cells[r][c]
    decreases |text|
  {
    if text != [] {
      var s' := PutByte(s, text[0]);
      PutPrintable(s, text[0]);
      PutPrintableRun(s', text[1..]);
      var t := PutBytes(s, text);
      assert t == PutBytes(s', text[1..]);
      forall i | 0 <= i < |text|
        ensures t.cells[s.row][s.col + i] == ScreenChar(text[i], s.color)
      {
        if i > 0 {
          assert text[1..][i - 1] == text[i];
        }
      }
    }
  }

  /**
   * The scenario `writeln!(writer, "\n{}", s)` of the `test_println_output`
   * test: with the writer on one of the last three rows, a newline, a run of
   * at most 80 printable bytes and a newline leave the run on row 23 (the
   * second-to-last row), from column 0.
   */
  lemma {:induction false} PrintlnScenario(s: Screen, text: seq<U8>)
    requires WellFormed(s) && s.row >= LAST_ROW - 2
    requires forall i :: 0 <= i < |text| ==> Printable(text[i])
    requires |text| <= BUFFER_WIDTH
    ensures forall i :: 0 <= i < |text| ==>
              PutBytes(s, [NEWLINE] + text + [NEWLINE]).cells[BUFFER_HEIGHT - 2][i] == ScreenChar(text[i], s.color)
  {
    var s1 := PutByte(s, NEWLINE);
    assert PutBytes(s, [NEWLINE]) == s1 by {
      assert [NEWLINE][1..] == [];
    }
    assert s1.col == 0 && s1.row == if s.row == LAST_ROW - 2 then LAST_ROW - 1 else LAST_ROW;
    PutPrintableRun(s1, text);
    var s2 := PutBytes(s1, text);
    var s3 := PutByte(s2, NEWLINE);
    assert PutBytes(s2, [NEWLINE]) == s3 by {
      assert [NEWLINE][1..] == [];
    }
    PutBytesAppend(s, [NEWLINE], text);
    PutBytesAppend(s, [NEWLINE] + text, [NEWLINE]);
    if s.row == LAST_ROW - 2 {
      // the run lands on row 23 directly and the last newline only moves down
      NewLineMovesDown(s2);
    } else {
      // the run lands on row 24 and the last newline scrolls it up to row 23
      NewLineScrolls(s2);
      forall i | 0 <= i < |text|
        ensures s3.cells[BUFFER_HEIGHT - 2][i] == ScreenChar(text[i], s.color)
      {
        assert s3.cells[LAST_ROW - 1][i] == s2.cells[LAST_ROW][i];
      }
    }
  }

  // ---------------------------------------------------------------------------
  // The writer invariant over any run of bytes

  /**
   * After any sequence of `write_byte` calls the cursor, which only
   * `new_line` moves, is either where it was or on a row of the buffer.
   */
  lemma {:induction false} PutBytesKeepsBounds(s: Screen, bytes: seq<U8>)
    requires WellFormed(s)
    ensures PutBytes(s, bytes).cursorRow < BUFFER_HEIGHT || PutBytes(s, bytes).cursorRow == s.cursorRow
    decreases |bytes|
  {
    if bytes != [] {
      var s' := PutByte(s, bytes[0]);
      assert s'.cursorRow < BUFFER_HEIGHT || s'.cursorRow == s.cursorRow;
      PutBytesKeepsBounds(s', bytes[1..]);
    }
  }

  // ---------------------------------------------------------------------------
  // Cursor register

  /** `write_cursor`: the CRTC cursor location `y * 80 + x`, truncated to `u16`. */
  function CursorLocation(x: nat, y: nat): (loc: U16)
    ensures x <= BUFFER_WIDTH && y < BUFFER_HEIGHT ==> loc == y * BUFFER_WIDTH + x
    ensures (y * BUFFER_WIDTH + x - loc) % 0x1_0000 == 0
  {
    (y * BUFFER_WIDTH + x) % 0x1_0000
  }

  /** `pos.to_le_bytes()`: the low byte goes to register 0x0F, the high byte to 0x0E. */
  function CursorBytes(x: nat, y: nat): (bytes: (U8, U8))
    ensures bytes.0 + 0x100 * bytes.1 == CursorLocation(x, y)
  {
    var pos := CursorLocation(x, y);
    (pos % 0x100, pos / 0x100)
  }

  /**
   * For any position a writer can be at the location is not truncated, and
   * the adapter decodes it back to the same cell (column 80, the lazily
   * wrapped position, shows as column 0 of the next row).
   */
  lemma CursorLocationDecodes(x: nat, y: nat)
    requires x <= BUFFER_WIDTH && y < BUFFER_HEIGHT
    ensures CursorLocation(x, y) == y * BUFFER_WIDTH + x
    ensures x < BUFFER_WIDTH ==> CursorLocation(x, y) / BUFFER_WIDTH == y && CursorLocation(x, y) % BUFFER_WIDTH == x
    ensures x == BUFFER_WIDTH ==> CursorLocation(x, y) / BUFFER_WIDTH == y + 1 && CursorLocation(x, y) % BUFFER_WIDTH == 0
  {
  }

  // ---------------------------------------------------------------------------
  // Select Graphic Rendition (ECMA-48, section 8.3.117)

  /** Foreground and background chosen by a control sequence. */
  datatype Rendition = Rendition(fg: Color, bg: Color)

  const DEFAULT_RENDITION: Rendition := Rendition(FG, BG)

  /** SGR 30..37 and the bright extension 90..97. */
  predicate SetsForeground(p: U16)
  {
    30 <= p <= 37 || 90 <= p <= 97
  }

  /** SGR 40..47 and the bright extension 100..107. */
  predicate SetsBackground(p: U16)
  {
    40 <= p <= 47 || 100 <= p <= 107
  }

  /** One SGR parameter applied to the rendition built so far. */
  function SgrParam(r: Rendition, p: U16): Rendition
  {
    if p == 0 then DEFAULT_RENDITION
    else if SetsForeground(p) then r.(fg := FromAnsi(p))
    else if SetsBackground(p) then r.(bg := FromAnsi(p - 10))
    else r
  }

  /** Every parameter the parser hands over has a first sub-parameter. */
  predicate HasFirstSubparams(params: seq<seq<U16>>)
  {
    forall k :: 0 <= k < |params| ==> |params[k]| > 0
  }

  /** The rendition of `csi_dispatch` for `'m'`: the defaults, then each first sub-parameter in order. */
  function Sgr(params: seq<seq<U16>>): (r: Rendition)
    requires HasFirstSubparams(params)
    ensures r.fg == FG || exists k :: 0 <= k < |params| && SetsForeground(params[k][0]) && r.fg == FromAnsi(params[k][0])
    ensures r.bg == BG || exists k :: 0 <= k < |params| && SetsBackground(params[k][0]) && r.bg == FromAnsi(params[k][0] - 10)
    decreases |params|
  {
    if params == [] then DEFAULT_RENDITION
    else SgrParam(Sgr(params[..|params| - 1]), params[|params| - 1][0])
  }

  /** `csi_dispatch(params, _, _, c)`: only `'m'` is implemented; any other final character does nothing. */
  function CsiDispatch(s: Screen, params: seq<seq<U16>>, c: char): (t: Screen)
    requires HasFirstSubparams(params)
    ensures c != 'm' ==> t == s
    ensures c == 'm' ==> Foreground(t.color) == Sgr(params).fg && Background(t.color) == Sgr(params).bg
    ensures t.cells == s.cells && t.col == s.col && t.row == s.row
    ensures t.cursorCol == s.cursorCol && t.cursorRow == s.cursorRow
  {
    CharColorRoundTrip(Sgr(params).fg, Sgr(params).bg, Sgr(params).fg, Sgr(params).bg);
    if c == 'm' then SetColor(s, NewCharColor(Sgr(params).fg, Sgr(params).bg)) else s
  }

  /** Does the parameter decide the foreground (a reset or a foreground code)? */
  predicate TouchesForeground(p: U16)
  {
    p == 0 || SetsForeground(p)
  }

  predicate TouchesBackground(p: U16)
  {
    p == 0 || SetsBackground(p)
  }

  /** The last parameter that decides the foreground wins. */
  lemma {:induction false} SgrForegroundLastWins(params: seq<seq<U16>>, k: nat)
    requires HasFirstSubparams(params) && k < |params|
    requires SetsForeground(params[k][0])
    requires forall j :: k < j < |params| ==> !TouchesForeground(params[j][0])
    ensures Sgr(params).fg == FromAnsi(params[k][0])
    decreases |params|
  {
    var n := |params| - 1;
    if k < n {
      SgrForegroundLastWins(params[..n], k);
    }
  }

  /**
   * With no foreground code after a reset (or after the start, `k == 0`),
   * the foreground is the default LightGray, whatever the writer's colour was.
   */
  lemma {:induction false} SgrForegroundDefault(params: seq<seq<U16>>, k: nat)
    requires HasFirstSubparams(params) && k <= |params|
    requires k == 0 || params[k - 1][0] == 0
    requires forall j :: k <= j < |params| ==> !SetsForeground(params[j][0])
    ensures Sgr(params).fg == FG
    decreases |params|
  {
    var n := |params| - 1;
    if k <= n {
      SgrForegroundDefault(params[..n], k);
    }
  }

  lemma {:induction false} SgrBackgroundLastWins(params: seq<seq<U16>>, k: nat)
    requires HasFirstSubparams(params) && k < |params|
    requires SetsBackground(params[k][0])
    requires forall j :: k < j < |params| ==> !TouchesBackground(params[j][0])
    ensures Sgr(params).bg == FromAnsi(params[k][0] - 10)
    decreases |params|
  {
    var n := |params| - 1;
    if k < n {
      SgrBackgroundLastWins(params[..n], k);
    }
  }

  lemma {:induction false} SgrBackgroundDefault(params: seq<seq<U16>>, k: nat)
    requires HasFirstSubparams(params) && k <= |params|
    requires k == 0 || params[k - 1][0] == 0
    requires forall j :: k <= j < |params| ==> !SetsBackground(params[j][0])
    ensures Sgr(params).bg == BG
    decreases |params|
  {
    var n := |params| - 1;
    if k <= n {
      SgrBackgroundDefault(params[..n], k);
    }
  }

  /**
   * `'m'` replaces the colour by one that depends on the parameters only,
   * not on the colour before; any other final character changes nothing.
   */
  lemma CsiDispatchColor(s: Screen, s': Screen, params: seq<seq<U16>>, c: char)
    requires HasFirstSubparams(params)
    ensures c == 'm' ==> CsiDispatch(s, params, c).color == CsiDispatch(s', params, c).color
    ensures c == 'm' ==> CsiDispatch(s, params, c) == s.(color := CsiDispatch(s', params, c).color)
    ensures c != 'm' ==> CsiDispatch(s, params, c) == s
  {
  }
}
