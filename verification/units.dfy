/** Conversion of the adapter's dedicated video memory from bytes to megabytes. */
module Units {
  import opened Dxgi

  const BytesPerKilobyte: int := 1024
  const BytesPerMegabyte: int := 1024 * 1024

  /**
   * Two truncating unsigned divisions by 1024. The result is the whole
   * number of megabytes in `bytes`: the largest `mb` with
   * `mb * 1048576 <= bytes`.
   */
  function BytesToMegabytes(bytes: uint64): (mb: uint64)
    ensures mb * BytesPerMegabyte <= bytes < mb * BytesPerMegabyte + BytesPerMegabyte
    ensures mb == bytes / BytesPerMegabyte
    ensures mb <= bytes
  {
    bytes / BytesPerKilobyte / BytesPerKilobyte
  }
}
