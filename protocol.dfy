/** Fixed constants of the display protocol: frame size, header word,
    the blank digit code, the unit flag and the command code. */
module Protocol {

  /** Length of one HID report, report-ID byte included. */
  const PacketSize: nat := 65

  /** Two-byte header word, sent most significant byte first. */
  const PacketHeader: int := 0x3AB5

  /** Digit code that leaves a seven-segment position dark (ASCII space). */
  const SpaceChar: int := 0x20

  /** Unit flag sent in byte 9; always "Celsius". */
  const CelsiusUnit: int := 1

  /** Command code for an ordinary display update. */
  const NormalCommand: int := 0x01

  /** Largest scaled value the four positions can show (999.9 shown as 9999). */
  const MaxScaled: int := 9999

  /** A value the display accepts in a digit position: a decimal digit or a blank. */
  predicate IsDigitCode(x: int) {
    0 <= x <= 9 || x == SpaceChar
  }
}
