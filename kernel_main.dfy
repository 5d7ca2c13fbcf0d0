/** The `write_bytes` helper of the kernel binary (src/main.rs). */
module KernelMain {
  import opened Ints
  import opened VgaColor
  import opened VgaScreen

  /**
   * `write_bytes(buffer, row, col, bytes, color)`: byte `i` goes to cell
   * `(row, col + i)` in the given colour, straight into the buffer; the
   * writer's position, cursor and colour are not involved. Indexing past the
   * buffer panics in the source, so the bytes must fit on the row.
   */
  method WriteBytes(buffer: array2<ScreenChar>, row: nat, col: nat, bytes: seq<U8>, color: CharColor)
    requires buffer.Length0 == BUFFER_HEIGHT && buffer.Length1 == BUFFER_WIDTH
    requires row < BUFFER_HEIGHT && col + |bytes| <= BUFFER_WIDTH
    modifies buffer
    ensures forall i :: 0 <= i < |bytes| ==> buffer[row, col + i] == ScreenChar(bytes[i], color)
    ensures forall r, c :: 0 <= r < BUFFER_HEIGHT && 0 <= c < BUFFER_WIDTH && !(r == row && col <= c < col + |bytes|) ==>
              buffer[r, c] == old(buffer[r, c])
  {
    var i := 0;
    while i < |bytes|
      invariant 0 <= i <= |bytes|
      invariant forall k :: 0 <= k < i ==> buffer[row, col + k] == ScreenChar(bytes[k], color)
      invariant forall r, c :: 0 <= r < BUFFER_HEIGHT && 0 <= c < BUFFER_WIDTH && !(r == row && col <= c < col + i) ==>
                  buffer[r, c] == old(buffer[r, c])
    {
      buffer[row, col + i] := ScreenChar(bytes[i], color);
      i := i + 1;
    }
  }
}
