/**
 * `Writer` of src/sys/vga.rs: the text-mode writer that updates the 25x80
 * buffer at 0xB8000 in place. Every method except `SetFont`, whose contract
 * is about VGA plane 2, is proved to move the writer from `old(State())` to
 * the state the matching function of `VgaScreen` gives.
 */
module Vga {
  import opened Ints
  import opened VgaColor
  import opened VgaFont
  import opened VgaScreen

  /** The buffer's contents as rows of cells. */
  function Rows(buffer: array2<ScreenChar>): (rows: seq<seq<ScreenChar>>)
    reads buffer
    requires buffer.Length0 == BUFFER_HEIGHT && buffer.Length1 == BUFFER_WIDTH
    ensures |rows| == BUFFER_HEIGHT
    ensures forall r :: 0 <= r < BUFFER_HEIGHT ==> |rows[r]| == BUFFER_WIDTH
  {
    seq(BUFFER_HEIGHT, r reads buffer requires 0 <= r < BUFFER_HEIGHT =>
      seq(BUFFER_WIDTH, c reads buffer requires 0 <= c < BUFFER_WIDTH => buffer[r, c]))
  }

  lemma RowsAt(buffer: array2<ScreenChar>)
    requires buffer.Length0 == BUFFER_HEIGHT && buffer.Length1 == BUFFER_WIDTH
    ensures forall r, c :: 0 <= r < BUFFER_HEIGHT && 0 <= c < BUFFER_WIDTH ==> Rows(buffer)[r][c] == buffer[r, c]
  {
  }

  /** Two grids that agree cell by cell are equal. */
  lemma RowsEqual(buffer: array2<ScreenChar>, cells: seq<seq<ScreenChar>>)
    requires buffer.Length0 == BUFFER_HEIGHT && buffer.Length1 == BUFFER_WIDTH
    requires |cells| == BUFFER_HEIGHT && forall r :: 0 <= r < BUFFER_HEIGHT ==> |cells[r]| == BUFFER_WIDTH
    requires forall r, c :: 0 <= r < BUFFER_HEIGHT && 0 <= c < BUFFER_WIDTH ==> buffer[r, c] == cells[r][c]
    ensures Rows(buffer) == cells
  {
    forall r | 0 <= r < BUFFER_HEIGHT
      ensures Rows(buffer)[r] == cells[r]
    {
      assert forall c :: 0 <= c < BUFFER_WIDTH ==> Rows(buffer)[r][c] == cells[r][c];
    }
  }

  /** Offsets of VGA plane 2 that `set_font` writes glyphs `0..i` (rows `0..j` of glyph `i`) to. */
  predicate WrittenSoFar(height: nat, i: nat, j: nat, o: nat)
  {
    (i > 0 && o < 32 * (i - 1) + height && (32 <= height || o % 32 < height)) ||
    (32 * i <= o < 32 * i + j)
  }

  /** Offsets of VGA plane 2 that `set_font` writes for the whole font. */
  predicate FontWrites(font: Font, o: nat)
  {
    WrittenSoFar(font.height, font.size, 0, o)
  }

  /** Plane 2 is large enough for every offset `set_font` writes. */
  predicate PlaneFits(font: Font, planeLength: nat)
  {
    font.size == 0 || 32 * (font.size - 1) + font.height <= planeLength
  }

  class Writer {
    /** `writer_position`: column and row of the next byte. */
    var col: nat
    var row: nat
    /** `cursor_position`: where the hardware cursor was last put. */
    var cursorCol: nat
    var cursorRow: nat
    /** `color_code`. */
    var color: CharColor
    /** `buffer`: the memory-mapped text buffer. */
    const buffer: array2<ScreenChar>

    ghost predicate Valid()
      reads this
    {
      buffer.Length0 == BUFFER_HEIGHT && buffer.Length1 == BUFFER_WIDTH &&
      row < BUFFER_HEIGHT && col <= BUFFER_WIDTH
    }

    /** The writer's observable state. */
    function State(): (s: Screen)
      reads this, buffer
      requires Valid()
      ensures WellFormed(s)
    {
      Screen(Rows(buffer), col, row, cursorCol, cursorRow, color)
    }

    /** The initial `WRITER`: top left, cursor there too, LightGray on Black. */
    constructor (buffer: array2<ScreenChar>)
      requires buffer.Length0 == BUFFER_HEIGHT && buffer.Length1 == BUFFER_WIDTH
      ensures Valid() && this.buffer == buffer
      ensures State() == Screen(Rows(buffer), 0, 0, 0, 0, NewCharColor(FG, BG))
    {
      this.buffer := buffer;
      col, row := 0, 0;
      cursorCol, cursorRow := 0, 0;
      color := NewCharColor(FG, BG);
    }

    /** `write_byte`. */
    method WriteByte(b: U8)
      requires Valid()
      modifies this, buffer
      ensures Valid()
      ensures State() == PutByte(old(State()), b)
    {
      if b == NEWLINE {
        NewLine();
      } else if b == BACKSPACE {
        if col > 0 {
          ghost var s0 := State();
          RowsAt(buffer);
          var c := Blank(color);
          col := col - 1;
          buffer[row, col] := c;
          RowsEqual(buffer, SetCell(s0.cells, row, col, c));
        }
      } else {
        if col >= BUFFER_WIDTH {
          NewLine();
        }
        ghost var s1 := State();
        RowsAt(buffer);
        var c := ScreenChar(b, color);
        buffer[row, col] := c;
        col := col + 1;
        RowsEqual(buffer, SetCell(s1.cells, row, col - 1, c));
      }
    }

    /** `new_line`: down one row, or scroll everything up by one on the last row. */
    method NewLine()
      requires Valid()
      modifies this, buffer
      ensures Valid()
      ensures State() == VgaScreen.NewLine(old(State()))
    {
      ghost var s0 := State();
      if row < LAST_ROW {
        row := row + 1;
      } else {
        RowsAt(buffer);
        var r := 1;
        while r < BUFFER_HEIGHT
          modifies buffer
          invariant 1 <= r <= BUFFER_HEIGHT
          invariant forall i, c :: 0 <= i < r - 1 && 0 <= c < BUFFER_WIDTH ==> buffer[i, c] == s0.cells[i + 1][c]
          invariant forall i, c :: r - 1 <= i < BUFFER_HEIGHT && 0 <= c < BUFFER_WIDTH ==> buffer[i, c] == s0.cells[i][c]
        {
          var dst := r - 1;
          var c := 0;
          while c < BUFFER_WIDTH
            modifies buffer
            invariant 0 <= c <= BUFFER_WIDTH
            invariant forall i, k :: 0 <= i < dst && 0 <= k < BUFFER_WIDTH ==> buffer[i, k] == s0.cells[i + 1][k]
            invariant forall k :: 0 <= k < c ==> buffer[dst, k] == s0.cells[r][k]
            invariant forall k :: c <= k < BUFFER_WIDTH ==> buffer[dst, k] == s0.cells[dst][k]
            invariant forall i, k :: r <= i < BUFFER_HEIGHT && 0 <= k < BUFFER_WIDTH ==> buffer[i, k] == s0.cells[i][k]
          {
            buffer[dst, c] := buffer[r, c];
            c := c + 1;
          }
          r := r + 1;
        }
        RowsEqual(buffer, s0.cells[1..] + [s0.cells[LAST_ROW]]);
        ClearRow(row);
      }
      col := 0;
      CursorAtWriter();
    }

    /** `clear_row(row)`: blanks in the current colour across the row. */
    method ClearRow(r: nat)
      requires Valid() && r < BUFFER_HEIGHT
      modifies buffer
      ensures Valid()
      ensures State() == VgaScreen.ClearRow(old(State()), r)
    {
      ghost var s0 := State();
      RowsAt(buffer);
      var blank := Blank(color);
      var c := 0;
      while c < BUFFER_WIDTH
        modifies buffer
        invariant 0 <= c <= BUFFER_WIDTH
        invariant forall k :: 0 <= k < c ==> buffer[r, k] == blank
        invariant forall i, k :: 0 <= i < BUFFER_HEIGHT && 0 <= k < BUFFER_WIDTH && (i != r || c <= k) ==>
                    buffer[i, k] == s0.cells[i][k]
      {
        buffer[r, c] := blank;
        c := c + 1;
      }
      RowsEqual(buffer, s0.cells[r := BlankRow(color)]);
    }

    /** `clear_screen`: `clear_row` on every row, top to bottom. */
    method ClearScreen()
      requires Valid()
      modifies buffer
      ensures Valid()
      ensures State() == VgaScreen.ClearScreen(old(State()))
    {
      ghost var s0 := State();
      RowsAt(buffer);
      var i := 0;
      while i < BUFFER_HEIGHT
        invariant 0 <= i <= BUFFER_HEIGHT
        invariant Valid() && col == s0.col && row == s0.row && color == s0.color
        invariant cursorCol == s0.cursorCol && cursorRow == s0.cursorRow
        invariant forall k, c :: 0 <= k < i && 0 <= c < BUFFER_WIDTH ==> buffer[k, c] == Blank(s0.color)
        invariant forall k, c :: i <= k < BUFFER_HEIGHT && 0 <= c < BUFFER_WIDTH ==> buffer[k, c] == s0.cells[k][c]
      {
        ClearRow(i);
        RowsAt(buffer);
        i := i + 1;
      }
      RowsEqual(buffer, VgaScreen.ClearScreen(s0).cells);
    }

    /** `set_color`. */
    method SetColor(cc: CharColor)
      requires Valid()
      modifies this
      ensures Valid()
      ensures State() == VgaScreen.SetColor(old(State()), cc)
    {
      color := cc;
    }

    /**
     * `set_cursor_position(x, y)`. The CRTC register writes are left out;
     * the value they carry is `CursorBytes(x, y)`.
     */
    method SetCursorPosition(x: nat, y: nat)
      requires Valid()
      modifies this
      ensures Valid()
      ensures State() == VgaScreen.SetCursorPosition(old(State()), x, y)
    {
      cursorCol, cursorRow := x, y;
    }

    /** `cursor_at_writer`. */
    method CursorAtWriter()
      requires Valid()
      modifies this
      ensures Valid()
      ensures State() == VgaScreen.CursorAtWriter(old(State()))
    {
      SetCursorPosition(col, row);
    }

    /**
     * `set_font`: copies row `j` of glyph `i` to offset `32*i + j` of VGA
     * plane 2 (`plane`). Where a glyph is taller than its 32-byte slot, the
     * next glyph's rows overwrite the overflow, so rows below 32 are the ones
     * that end up in place. Offsets that are never written keep their bytes.
     * The sequencer and graphics register writes around the copy are left out.
     */
    method SetFont(font: Font, plane: array<U8>)
      requires Complete(font)
      requires PlaneFits(font, plane.Length)
      modifies plane
      ensures forall i, j :: 0 <= i < font.size && 0 <= j < font.height && j < GLYPH_SLOT ==>
                plane[PlaneOffset(i, j)] == GlyphRow(font, i, j)
      ensures forall o :: 0 <= o < plane.Length && !FontWrites(font, o) ==> plane[o] == old(plane[o])
    {
      var h := font.height as nat;
      var i := 0;
      while i < font.size
        invariant 0 <= i <= font.size
        invariant forall i', j' :: 0 <= i' < i && 0 <= j' < h && j' < GLYPH_SLOT ==>
                    plane[PlaneOffset(i', j')] == GlyphRow(font, i', j')
        invariant forall o :: 0 <= o < plane.Length && !WrittenSoFar(h, i, 0, o) ==> plane[o] == old(plane[o])
      {
        var j := 0;
        while j < h
          invariant 0 <= j <= h
          invariant forall i', j' :: 0 <= i' < i && 0 <= j' < h && j' < GLYPH_SLOT ==>
                      plane[PlaneOffset(i', j')] == GlyphRow(font, i', j')
          invariant forall j' :: 0 <= j' < j && j' < GLYPH_SLOT ==>
                      plane[PlaneOffset(i, j')] == GlyphRow(font, i, j')
          invariant forall o :: 0 <= o < plane.Length && !WrittenSoFar(h, i, j, o) ==> plane[o] == old(plane[o])
        {
          var vgaOffset := j + i * 32;
          var fntOffset := j + i * h;
          FontOffsetInRange(font, i, j);
          plane[vgaOffset] := font.data[fntOffset];
          assert plane[vgaOffset] == GlyphRow(font, i, j);
          j := j + 1;
        }
        forall o | 0 <= o < plane.Length && WrittenSoFar(h, i, h, o)
          ensures WrittenSoFar(h, i + 1, 0, o)
        {
          if 32 * i <= o < 32 * i + h && h < 32 {
            SlotDivMod(i, o - 32 * i);
          }
        }
        i := i + 1;
      }
    }

    /** `Perform::print`: the character's low byte goes to `write_byte`. */
    method Print(c: char)
      requires Valid()
      modifies this, buffer
      ensures Valid()
      ensures State() == PrintChar(old(State()), c)
    {
      WriteByte((c as int) % 0x100);
    }

    /** `Perform::execute`: a control byte goes to `write_byte` unchanged. */
    method Execute(b: U8)
      requires Valid()
      modifies this, buffer
      ensures Valid()
      ensures State() == PutByte(old(State()), b)
    {
      WriteByte(b);
    }

    /**
     * `Perform::csi_dispatch`: for `'m'`, fold the first sub-parameter of each
     * parameter into a foreground and background that start from the
     * defaults, then set the colour; other final characters are ignored.
     */
    method CsiDispatch(params: seq<seq<U16>>, intermediates: seq<U8>, ignore: bool, c: char)
      requires Valid() && HasFirstSubparams(params)
      modifies this
      ensures Valid()
      ensures State() == VgaScreen.CsiDispatch(old(State()), params, c)
    {
      if c == 'm' {
        var fg, bg := FG, BG;
        var k := 0;
        while k < |params|
          invariant 0 <= k <= |params|
          invariant Rendition(fg, bg) == Sgr(params[..k])
        {
          assert params[..k + 1][..k] == params[..k];
          var p := params[k][0];
          if p == 0 {
            fg, bg := FG, BG;
          } else if 30 <= p <= 37 || 90 <= p <= 97 {
            fg := FromAnsi(p);
          } else if 40 <= p <= 47 || 100 <= p <= 107 {
            bg := FromAnsi(p - 10);
          }
          k := k + 1;
        }
        assert params[..|params|] == params;
        SetColor(NewCharColor(fg, bg));
      }
    }
  }
}
