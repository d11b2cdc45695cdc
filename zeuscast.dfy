/** One display update, from a temperature already in the display scale to
    the frame handed to the HID transport. */
module ZeusCast {
  import opened Protocol
  import opened DigitEncoder
  import opened PacketCodec

  /** Encodes a temperature and builds the frame that carries its digits. */
  method EncodeReading(temperature: real) returns (packet: seq<int>)
    ensures var d := DisplayDigits(temperature);
      IsFrame(packet, d[0], d[1], d[2], d[3])
    ensures packet[4..8] == DisplayDigits(temperature)
    ensures forall i :: 0 <= i < |packet| ==> 0 <= packet[i] < 256
  {
    var displayDigits := PrepareDisplayDigits(temperature);
    packet := BuildPacket(displayDigits[0], displayDigits[1], displayDigits[2], displayDigits[3]);
  }

  /** A frame received for the digits of some temperature passes the
      device's checks and reads back as that temperature's scaled value. */
  lemma FrameReadsBack(p: seq<int>, temperature: real)
    requires var d := DisplayDigits(temperature); IsFrame(p, d[0], d[1], d[2], d[3])
    ensures DigitValue(Unblank(p[4..8])) == Scaled(temperature)
  {
    assert p[4..8] == DisplayDigits(temperature);
    DisplayRoundTrip(temperature);
  }

  /** A reading of 23.456 is sent as digits [blank, 2, 3, 4] with checksum
      (243 + 0x20 + 2 + 3 + 4) mod 256 = 28. */
  lemma EndToEndExample(p: seq<int>)
    requires var d := DisplayDigits(23.456); IsFrame(p, d[0], d[1], d[2], d[3])
    ensures p[4..8] == [SpaceChar, 2, 3, 4]
    ensures p[13] == 28 && p[13] == Sum(p[..13]) % 256
  {
    TruncationExamples();
    FrameChecksum(p, SpaceChar, 2, 3, 4);
  }
}
