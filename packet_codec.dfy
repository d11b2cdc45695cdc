/** The 65-byte display frame: fixed header, command, the four digit codes,
    the mode and unit flags, and a one-byte additive checksum at offset 13. */
module PacketCodec {
  import opened Protocol

  /** Sum of a sequence of integers. */
  function Sum(s: seq<int>): int
  {
    if s == [] then 0 else Sum(s[..|s| - 1]) + s[|s| - 1]
  }

  /** The checksum of a frame: the sum of its first fourteen bytes (all of
      them when it is shorter) reduced to one byte. Masking with 0xFF and
      Dafny's `%` agree for every integer sum, negative ones included. */
  function CheckValue(packet: seq<int>): (r: int)
    ensures 0 <= r < 256
    ensures |packet| >= 14 ==> (r - Sum(packet[..14])) % 256 == 0
  {
    Sum(packet[..if |packet| < 14 then |packet| else 14]) % 256
  }

  /** The layout the receiving device expects, for the digit codes d1..d4. */
  predicate IsFrame(p: seq<int>, d1: int, d2: int, d3: int, d4: int)
  {
    && |p| == 65
    && p[0] == 0
    && p[1] == 0x3A && p[2] == 0xB5
    && p[3] == 0x01
    && p[4] == d1 && p[5] == d2 && p[6] == d3 && p[7] == d4
    && p[8] == 1 && p[9] == 1 && p[10] == 1
    && p[11] == 0 && p[12] == 0
    && p[13] == Sum(p[..13]) % 256
    && (forall i :: 14 <= i < 65 ==> p[i] == 0)
  }

  /** Appending a zero does not change a sum. */
  lemma SumZeroSnoc(s: seq<int>)
    ensures Sum(s + [0]) == Sum(s)
  {
    assert (s + [0])[..|s|] == s;
  }

  /** The checksum taken while byte 13 still reads 0 is the sum of bytes
      0 through 12, modulo 256. */
  lemma CheckValueOfZeroed(p: seq<int>)
    requires |p| >= 14 && p[13] == 0
    ensures CheckValue(p) == Sum(p[..13]) % 256
  {
    assert p[..14] == p[..13] + [0];
    SumZeroSnoc(p[..13]);
  }

  /** Extending a prefix by one element adds that element to its sum. */
  lemma SumPrefixStep(s: seq<int>, k: nat)
    requires k < |s|
    ensures Sum(s[..k + 1]) == Sum(s[..k]) + s[k]
  {
    assert s[..k + 1][..k] == s[..k];
  }

  /** The sum of a thirteen-byte prefix, written out term by term. */
  lemma SumThirteen(s: seq<int>)
    requires |s| == 13
    ensures Sum(s) == s[0] + s[1] + s[2] + s[3] + s[4] + s[5] + s[6]
                      + s[7] + s[8] + s[9] + s[10] + s[11] + s[12]
  {
    assert s[..0] == [];
    SumPrefixStep(s, 0); SumPrefixStep(s, 1); SumPrefixStep(s, 2);
    SumPrefixStep(s, 3); SumPrefixStep(s, 4); SumPrefixStep(s, 5);
    SumPrefixStep(s, 6); SumPrefixStep(s, 7); SumPrefixStep(s, 8);
    SumPrefixStep(s, 9); SumPrefixStep(s, 10); SumPrefixStep(s, 11);
    SumPrefixStep(s, 12);
    assert s[..13] == s;
  }

  /** A frame is determined by its digit codes: building twice from the same
      digits gives byte-identical frames. */
  lemma FrameUnique(p: seq<int>, q: seq<int>, d1: int, d2: int, d3: int, d4: int)
    requires IsFrame(p, d1, d2, d3, d4) && IsFrame(q, d1, d2, d3, d4)
    ensures p == q
  {
    assert p[..13] == q[..13];
  }

  /** The checksum of a frame in closed form: 0x3A + 0xB5 + 0x01 + the three
      flags add up to 243, so byte 13 is (243 + d1 + d2 + d3 + d4) mod 256. */
  lemma FrameChecksum(p: seq<int>, d1: int, d2: int, d3: int, d4: int)
    requires IsFrame(p, d1, d2, d3, d4)
    ensures p[13] == (243 + d1 + d2 + d3 + d4) % 256
  {
    SumThirteen(p[..13]);
  }

  /** Fills a zeroed 65-byte buffer with header, command, digits and flags,
      then stores at index 13 the checksum of the buffer as it stands. */
  method BuildPacket(digitOne: int, digitTwo: int, digitThree: int, digitFour: int)
    returns (packet: seq<int>)
    ensures IsFrame(packet, digitOne, digitTwo, digitThree, digitFour)
    ensures packet[13] == CheckValue(packet[13 := 0])
  {
    var dataPacket := new int[PacketSize](_ => 0);
    dataPacket[0] := 0;
    dataPacket[1] := PacketHeader / 256;   // high byte of the header
    dataPacket[2] := PacketHeader % 256;   // low byte of the header
    dataPacket[3] := NormalCommand;
    dataPacket[4] := digitOne;
    dataPacket[5] := digitTwo;
    dataPacket[6] := digitThree;
    dataPacket[7] := digitFour;
    dataPacket[8] := 0x01;
    dataPacket[9] := CelsiusUnit;
    dataPacket[10] := 0x01;

    ghost var before := dataPacket[..];
    assert forall i :: 11 <= i < PacketSize ==> before[i] == 0;
    CheckValueOfZeroed(before);
    dataPacket[13] := CheckValue(dataPacket[..]);
    packet := dataPacket[..];
    assert packet == before[13 := CheckValue(before)];
    assert packet[..13] == before[..13];
    assert packet[13 := 0] == before;
  }
}
