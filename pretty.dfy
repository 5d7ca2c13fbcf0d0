/** The `write_bytes` helper of src/pretty.rs, a copy of the one in src/main.rs. */
module Pretty {
  import opened Ints
  import opened VgaColor
  import opened VgaScreen
  import KernelMain

  /** `write_bytes`: the same blit as `KernelMain.WriteBytes`, to which it delegates. */
  method WriteBytes(buffer: array2<ScreenChar>, row: nat, col: nat, bytes: seq<U8>, color: CharColor)
    requires buffer.Length0 == BUFFER_HEIGHT && buffer.Length1 == BUFFER_WIDTH
    requires row < BUFFER_HEIGHT && col + |bytes| <= BUFFER_WIDTH
    modifies buffer
    ensures forall i :: 0 <= i < |bytes| ==> buffer[row, col + i] == ScreenChar(bytes[i], color)
    ensures forall r, c :: 0 <= r < BUFFER_HEIGHT && 0 <= c < BUFFER_WIDTH && !(r == row && col <= c < col + |bytes|) ==>
              buffer[r, c] == old(buffer[r, c])
  {
    KernelMain.WriteBytes(buffer, row, col, bytes, color);
  }
}
