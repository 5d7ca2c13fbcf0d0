/**
 * Colours of the VGA text mode (src/sys/vga.rs): the sixteen attribute
 * colours, the mapping from the SGR colour parameters of ECMA-48
 * (section 8.3.117) to them, and the attribute byte packing foreground and
 * background into one nibble each.
 */
module VgaColor {
  import opened Ints

  /** `Color`, in discriminant order 0..15. */
  datatype Color =
    | Black | Blue | Green | Cyan | Red | Magenta | Brown | LightGray
    | DarkGray | LightBlue | LightGreen | LightCyan | LightRed | Pink | Yellow | White

  /** `color as u8`: the 4-bit attribute value (bit 0 blue, bit 1 green, bit 2 red, bit 3 intensity). */
  function Value(c: Color): (v: nat)
    ensures v < 16
  {
    match c
    case Black => 0      case Blue => 1       case Green => 2      case Cyan => 3
    case Red => 4        case Magenta => 5    case Brown => 6      case LightGray => 7
    case DarkGray => 8   case LightBlue => 9  case LightGreen => 10 case LightCyan => 11
    case LightRed => 12  case Pink => 13      case Yellow => 14    case White => 15
  }

  /** The colour with attribute value `v`. */
  function OfValue(v: nat): (c: Color)
    requires v < 16
    ensures Value(c) == v
  {
    [Black, Blue, Green, Cyan, Red, Magenta, Brown, LightGray,
     DarkGray, LightBlue, LightGreen, LightCyan, LightRed, Pink, Yellow, White][v]
  }

  lemma OfValueOfColor(c: Color)
    ensures OfValue(Value(c)) == c
  {
  }

  /**
   * ECMA-48 numbers its eight colours by an RGB bit set (bit 0 red, bit 1
   * green, bit 2 blue); VGA attributes put blue in bit 0 and red in bit 2.
   * This reorders the bits of an SGR colour index into a VGA colour value.
   */
  function RgbToVga(k: nat): (v: nat)
    requires k < 8
    ensures v < 8
  {
    (k % 2) * 4 + ((k / 2) % 2) * 2 + k / 4
  }

  /**
   * `Color::from_ansi`: 30..37 are the normal SGR foreground colours, 90..97
   * their bright variants; every other code, 30 included, falls back to Black.
   */
  function FromAnsi(code: U8): (c: Color)
    ensures 30 <= code <= 37 ==> Value(c) == RgbToVga(code - 30)
    ensures 90 <= code <= 97 ==> Value(c) == 8 + RgbToVga(code - 90)
    ensures !(31 <= code <= 37 || 90 <= code <= 97) ==> c == Black
  {
    match code
    case 31 => Red
    case 32 => Green
    case 33 => Brown
    case 34 => Blue
    case 35 => Magenta
    case 36 => Cyan
    case 37 => LightGray
    case 90 => DarkGray
    case 91 => LightRed
    case 92 => LightGreen
    case 93 => Yellow
    case 94 => LightBlue
    case 95 => Pink
    case 96 => LightCyan
    case 97 => White
    case _ => Black
  }

  /** `CharColor`: a VGA attribute byte, background in the high nibble, foreground in the low one. */
  datatype CharColor = CharColor(bits: U8)

  /** `CharColor::new(fg, bg)`: `(bg << 4) | fg` on `u8`. */
  function NewCharColor(fg: Color, bg: Color): (cc: CharColor)
    ensures cc.bits / 16 == Value(bg)
    ensures cc.bits % 16 == Value(fg)
  {
    var hi, lo := Value(bg), Value(fg);
    var packed: bv8 := (hi as bv8 << 4) | lo as bv8;
    NibbleSplit(hi, lo);
    assert packed as int == hi * 16 + lo;
    CharColor(packed as int)
  }

  /** The foreground a VGA adapter decodes from an attribute byte. */
  function Foreground(cc: CharColor): Color
  {
    OfValue(cc.bits % 16)
  }

  /** The background a VGA adapter decodes from an attribute byte (blink disabled). */
  function Background(cc: CharColor): Color
  {
    OfValue(cc.bits / 16)
  }

  /** Decoding the packed attribute gives back both colours, so `NewCharColor` is injective. */
  lemma CharColorRoundTrip(fg: Color, bg: Color, fg': Color, bg': Color)
    ensures Foreground(NewCharColor(fg, bg)) == fg
    ensures Background(NewCharColor(fg, bg)) == bg
    ensures NewCharColor(fg, bg) == NewCharColor(fg', bg') ==> fg == fg' && bg == bg'
  {
    OfValueOfColor(fg);
    OfValueOfColor(bg);
    OfValueOfColor(fg');
    OfValueOfColor(bg');
  }

  /** Shifting a nibble up by four and or-ing in another nibble is `hi * 16 + lo`. */
  lemma NibbleSplit(hi: nat, lo: nat)
    requires hi < 16 && lo < 16
    ensures ((hi as bv8 << 4) | lo as bv8) as int == hi * 16 + lo
  {
    var h: bv8 := hi as bv8;
    var l: bv8 := lo as bv8;
    assert h < 16 && l < 16;
    assert (h << 4) | l == h * 16 + l;
  }
}
