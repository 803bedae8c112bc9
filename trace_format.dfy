/** The block-sector trace format shared by the trace converters (which write it)
    and the trace loader (which reads it): one row per access, with the columns
    `blocksector`, `read/write` and `boot/exec`. */
module TraceFormat {

  /** One row of a trace table. `readWrite` is 1 for a read and 0 for a write;
      `bootExec` is 1 for a row the converters mark as boot-phase, 0 otherwise.
      The loader copies the columns as they are, so any integer may appear. */
  datatype Row = Row(blocksector: int, readWrite: int, bootExec: int)

  /** A trace table once it has been read: its rows in file order. */
  type Table = seq<Row>

  const READ := 1
  const WRITE := 0
  const BOOT := 1
  const EXEC := 0
}
