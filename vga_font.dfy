/**
 * Bitmap fonts for the VGA text mode (src/sys/vga/font.rs) and the layout in
 * which `Writer::set_font` copies them into plane 2 of video memory.
 */
module VgaFont {
  import opened Ints

  /** Bytes reserved for one glyph in VGA plane 2. */
  const GLYPH_SLOT: nat := 32

  /** `Font`: `size` glyphs of `height` one-byte rows each, stored glyph after glyph in `data`. */
  datatype Font = Font(size: U16, height: U8, data: seq<U8>)

  /** `Font::from_dos_f16`: a DOS `.F16` file holds 256 glyphs of 8x16 pixels. */
  function FromDosF16(data: seq<U8>): (f: Font)
    ensures f.size == 256 && f.height == 16 && f.data == data
    ensures Complete(f) <==> 4096 <= |data|
  {
    Font(256, 16, data)
  }

  /**
   * `IBM_BIOS`: the 8x16 IBM VGA font. The embedded file `BIOS_D.F16` is not
   * part of this model, so its bytes are a parameter.
   */
  function IbmBios(file: seq<U8>): (f: Font)
    ensures f.size == 256 && f.height == 16 && f.data == file
    ensures |file| == 4096 ==> Complete(f) && forall i, j :: i < 256 && j < 16 ==> FontOffset(f, i, j) < |file|
  {
    FromDosF16(file)
  }

  /** Where row `j` of glyph `i` is read in the font data. */
  function FontOffset(font: Font, i: nat, j: nat): nat
  {
    j + i * font.height
  }

  /** Where row `j` of glyph `i` is written in VGA plane 2. */
  function PlaneOffset(i: nat, j: nat): nat
  {
    j + i * 32
  }

  /** Row `j` of glyph `i`: the byte at `FontOffset(font, i, j)`. */
  function GlyphRow(font: Font, i: nat, j: nat): U8
    requires Complete(font) && i < font.size && j < font.height
  {
    FontOffsetInRange(font, i, j);
    font.data[FontOffset(font, i, j)]
  }

  /** A font whose data holds every row the copy loop of `set_font` reads. */
  predicate Complete(font: Font)
  {
    font.size * font.height <= |font.data|
  }

  /**
   * `from_dos_f16` records 256 glyphs of height 16 and keeps the data
   * unchanged; a 4096-byte file is complete.
   */
  lemma FromDosF16Shape(data: seq<U8>)
    ensures FromDosF16(data).size == 256 && FromDosF16(data).height == 16
    ensures FromDosF16(data).data == data
    ensures Complete(FromDosF16(data)) <==> 4096 <= |data|
  {
  }

  /** Every read offset of a complete font is inside its data. */
  lemma {:induction false} FontOffsetInRange(font: Font, i: nat, j: nat)
    requires Complete(font)
    requires i < font.size && j < font.height
    ensures FontOffset(font, i, j) < |font.data|
  {
    var h := font.height as nat;
    assert (i + 1) * h <= font.size * h by {
      MulMonotone(i + 1, font.size, h);
    }
  }

  /**
   * Rows of one glyph land in that glyph's own slot as long as the row index
   * is below the slot size: row `j` of glyph `i` is the only one at its offset.
   */
  lemma {:induction false} PlaneOffsetInjective(i: nat, j: nat, i': nat, j': nat)
    requires j < GLYPH_SLOT && j' < GLYPH_SLOT
    ensures PlaneOffset(i, j) / GLYPH_SLOT == i && PlaneOffset(i, j) % GLYPH_SLOT == j
    ensures PlaneOffset(i, j) == PlaneOffset(i', j') <==> i == i' && j == j'
  {
    SlotDivMod(i, j);
    SlotDivMod(i', j');
  }

  /**
   * For the IBM BIOS font, glyph `i` row `j` is read from `data[16*i + j]`
   * and written to plane offset `32*i + j`, and the 4096 read offsets are
   * exactly the offsets `0..4096`, each once.
   */
  lemma {:induction false} IbmBiosLayout(file: seq<U8>, i: nat, j: nat)
    requires i < 256 && j < 16
    ensures FontOffset(IbmBios(file), i, j) == 16 * i + j < 4096
    ensures PlaneOffset(i, j) == 32 * i + j
    ensures FontOffset(IbmBios(file), i, j) / 16 == i && FontOffset(IbmBios(file), i, j) % 16 == j
  {
    var o := 16 * i + j;
    assert o / 16 == i && o % 16 == j;
  }

  /** Conversely every byte of a 4096-byte DOS font file is read, as row `o % 16` of glyph `o / 16`. */
  lemma IbmBiosCoversFile(file: seq<U8>, o: nat)
    requires o < 4096
    ensures o / 16 < 256 && FontOffset(IbmBios(file), o / 16, o % 16) == o
  {
  }

  lemma {:induction false} MulMonotone(a: nat, b: nat, c: nat)
    requires a <= b
    ensures a * c <= b * c
  {
    if c > 0 {
      MulMonotone(a, b, c - 1);
    }
  }

  lemma SlotDivMod(i: nat, j: nat)
    requires j < GLYPH_SLOT
    ensures (j + i * 32) / 32 == i && (j + i * 32) % 32 == j
  {
    var o := j + 32 * i;
    assert o / 32 == i && o % 32 == j;
  }
}
