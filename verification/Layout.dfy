// What the kernel's console and the user programs share about text on the screen.

module Layout {
  import opened Memory

  const COLS := 80
  const SPACE: Byte := 32
  const NEWLINE: Byte := 10

  /** A place on a sheet of text. */
  datatype Place = Place(row: nat, col: nat)
}
