# ZeusCast display codec in Dafny

ZeusCast reads the processor temperature and shows it on a four-position
seven-segment display attached over USB HID. This project models the part
with exact rules: the display protocol codec.

- **Digit encoding** (`DigitEncoder`). The temperature is multiplied by ten,
  clamped to [0, 9999] and truncated. The result is split into four decimal
  digits, most significant first; the last one is the tenths. Positions 0, 1
  and 2 are then scanned in order: a zero becomes the blank code `0x20` and the
  scan goes on, a nonzero digit stops it. The tenths are never blanked, so
  0.3 is shown as three blanks and a 3, and 0.0 as three blanks and a 0.
- **Frame building** (`PacketCodec`). A zero-filled 65-byte report receives
  the report-ID byte 0, the header `0x3A 0xB5`, the command `0x01`, the four
  digit codes, and the flags `1, 1, 1` at bytes 8 to 10. Byte 9 is the unit
  flag and is always "Celsius", also in Fahrenheit mode. Then the checksum,
  the sum of bytes 0 to 13 masked to one byte, is stored at byte 13. Byte 13 is
  still 0 when the sum is taken.
- **One update** (`ZeusCast`). One step of the polling loop is modelled: encode
  a reading, then build its frame.

The protocol constants are in `Protocol`. The temperature is a Dafny `real`
already converted to the display scale. The digit list and the frame buffer
are mutated in place in the source, so both are local arrays in
`PrepareDisplayDigits` and `BuildPacket`. Each of those methods returns the
array's contents as a sequence. Each method is proved against a specification:
`DisplayDigits` for the first, and the declarative frame layout `IsFrame` for
the second. `DisplayDigits` scales, splits into decimal digits and then applies
`BlankLeading`, a recursive function that performs the blanking scan.

## Model

| member | source | states |
|---|---|---|
| DigitEncoder.Scaled | ZeusCast.py:18 | the scaled value is in [0, 9999]; every temperature <= 0 gives 0; every temperature >= 999.9 gives 9999; in between it is the floor of 10·t (truncation, not rounding) |
| DigitEncoder.DecimalDigits | ZeusCast.py:20-25 | four raw digits, each 0 to 9 |
| DigitEncoder.DecimalDigitsValue | ZeusCast.py:20-25 | the four digits weighted 1000, 100, 10, 1 give back the scaled value |
| DigitEncoder.BlankLeading | ZeusCast.py:27-31 | the scan over positions 0-2 that blanks a zero and stops at the first nonzero digit or at the tenths keeps four positions |
| DigitEncoder.DisplayDigits | ZeusCast.py:17-33 | scale, split and blank: four codes, each a decimal digit or the blank 0x20 |
| DigitEncoder.BlankLeadingAt | ZeusCast.py:27-31 | the scan from a given position blanks exactly the positions below 3 whose digit and all digits since the start position are zero; all other positions are unchanged |
| DigitEncoder.BlankingRule | ZeusCast.py:27-31 | position i < 3 is blank exactly when raw digits 0..i are all zero; otherwise, and always at position 3, the raw digit is kept |
| DigitEncoder.DisplayDigitsRule | ZeusCast.py:17-33 | for every temperature: exactly 4 codes, each a digit 0-9 or 0x20; the tenths equal scaled % 10; blank iff zero through that position; unchanged from the first nonzero digit on |
| DigitEncoder.DisplayReadsBackAsDigits | ZeusCast.py:20-31 | reading the blanks as 0 gives back exactly the raw decimal digits of the scaled value |
| DigitEncoder.DisplayRoundTrip | ZeusCast.py:18-25 | reading blanks as 0 and weighting the positions 1000, 100, 10, 1 recovers the scaled value |
| DigitEncoder.DisplayDigitsInjective | ZeusCast.py:18-25 | different scaled values give different digit codes |
| DigitEncoder.ClampLow | ZeusCast.py:18 | every temperature <= 0 gives the same codes as 0.0, namely three blanks and 0 |
| DigitEncoder.ClampHigh | ZeusCast.py:18 | every temperature >= 999.9 gives 9, 9, 9, 9 |
| DigitEncoder.TruncationExamples | ZeusCast.py:18 | 12.36 gives scaled 123 and [blank,1,2,3], 23.456 gives scaled 234 and [blank,2,3,4]: truncation, not rounding |
| DigitEncoder.BlankingExamples | ZeusCast.py:27-31 | 7.2 gives [blank,blank,7,2], 0.3 gives [blank,blank,blank,3], 0.0 gives [blank,blank,blank,0], 99.9 gives [blank,9,9,9], 100.0 gives [1,0,0,0] |
| DigitEncoder.PrepareDisplayDigits | ZeusCast.py:17-33 | the buffer built and blanked in place by the loop with its early break equals DisplayDigits of the temperature |
| PacketCodec.CheckValue | ZeusCast.py:14-15 | the checksum is a byte in [0, 255], congruent mod 256 to the sum of the first 14 bytes |
| PacketCodec.CheckValueOfZeroed | ZeusCast.py:14-15 | with byte 13 still 0, the checksum equals the sum of bytes 0..12 mod 256 |
| PacketCodec.SumZeroSnoc | ZeusCast.py:15 | a trailing zero byte adds nothing to the sum |
| PacketCodec.SumPrefixStep | ZeusCast.py:15 | extending the summed prefix by one byte adds that byte |
| PacketCodec.SumThirteen | ZeusCast.py:15 | the sum over bytes 0..12 is their term-by-term total |
| PacketCodec.BuildPacket | ZeusCast.py:52-66 | the built frame is 65 bytes with byte 0 = 0, header 0x3A 0xB5, command 1, the digits unchanged at 4-7, flags 1 at 8-10, zeros at 11, 12 and 14-64, and byte 13 = sum of bytes 0..12 mod 256 = CheckValue of the frame with byte 13 read as 0 |
| PacketCodec.FrameUnique | ZeusCast.py:53-66 | two frames with the same digit codes are byte-identical, so building twice gives the same frame |
| PacketCodec.FrameChecksum | ZeusCast.py:53-66 | byte 13 of a frame is (243 + d1 + d2 + d3 + d4) mod 256 |
| ZeusCast.EncodeReading | ZeusCast.py:95-96 | the frame sent for a temperature has its digit codes at bytes 4-7, satisfies the frame layout, and consists of bytes in [0, 255] only |
| ZeusCast.FrameReadsBack | ZeusCast.py:95-96 | the digits of a frame built for a temperature read back, blanks as 0, as that temperature's scaled value |
| ZeusCast.EndToEndExample | ZeusCast.py:17-66 | 23.456 is sent as [0x20, 2, 3, 4] at bytes 4-7 with checksum 28 at byte 13 |

## Left out

- Opening, configuring, writing to and closing the HID device (ZeusCast.py:71, 83-85, 106), and the vendor and product identifiers used only to open it: foreign library I/O. The frame is returned instead of written.
- Reading the sensors through `psutil` and taking the maximum reading (ZeusCast.py:35-45): a foreign call returning floats.
- The Fahrenheit conversion `t*9/5+32` (ZeusCast.py:47-50): floating-point arithmetic upstream of the codec. The temperature is a real input already in the display scale.
- IEEE-754 behaviour of `temperature * 10` (rounding, NaN, infinities) at ZeusCast.py:18: the model uses exact real arithmetic, so its result can differ from the source's where the rounded double product 10·t lands on the other side of an integer than the exact product.
- Argument parsing, the polling loop with its sleep, interrupt handling, console output and the verbose print of the frame (ZeusCast.py:68-69, 73-106 apart from 95-96): I/O and timing glue.
- `& 0xFF` is written as `% 256`. Both give the same byte for every integer, negative ones included.
