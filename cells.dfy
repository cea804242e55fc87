/** An optional value, for parses that can fail. */
module Wrappers {
  datatype Option<+T> = None | Some(value: T)
}

/**
 * The cells of a timesheet row. The splitter reads and writes two kinds:
 * text (descriptions and `HH:MM` times) and the boolean flags it sets.
 */
module Cells {
  datatype Value = Text(s: string) | Flag(b: bool)
}
