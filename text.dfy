/** Go strings are byte sequences: `len` counts bytes, and the date parser
    compares bytes.  This module gives the byte type the rest of the model
    uses for every text field. */
module Text {

  newtype byte = x: int | 0 <= x < 256

  type Bytes = seq<byte>

  predicate IsDigit(c: byte) {
    48 <= c <= 57
  }

  function DigitValue(c: byte): (d: nat)
    requires IsDigit(c)
    ensures d <= 9
  {
    (c - 48) as nat
  }

  /** ASCII lower-casing, the folding Go's time package applies when it
      matches a month name; every other byte is left alone. */
  function Lower(c: byte): byte {
    if 65 <= c <= 90 then c + 32 else c
  }
}
