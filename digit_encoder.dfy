/** Conversion of a temperature into the four digit codes shown on the
    display: scale by ten, clamp, truncate, split into decimal digits and
    blank the leading zeros of the three integer positions. */
module DigitEncoder {
  import opened Protocol

  /** The temperature times ten, clamped to [0, 9999] and truncated toward zero.
      On the clamped range truncation and floor coincide. */
  function Scaled(temperature: real): (s: int)
    ensures 0 <= s <= MaxScaled
    ensures temperature <= 0.0 ==> s == 0
    ensures temperature >= 999.9 ==> s == MaxScaled
    ensures 0.0 <= temperature < 999.9 ==>
              s as real <= 10.0 * temperature < s as real + 1.0
  {
    var x := 10.0 * temperature;
    var capped := if x < MaxScaled as real then x else MaxScaled as real;  // cap at MaxScaled
    var clamped := if capped > 0.0 then capped else 0.0;                   // raise negatives to 0
    clamped.Floor
  }

  /** The four decimal digits of a scaled value, most significant first. */
  function DecimalDigits(s: nat): (raw: seq<int>)
    ensures |raw| == 4
    ensures forall i :: 0 <= i < 4 ==> 0 <= raw[i] <= 9
  {
    [(s / 1000) % 10, (s / 100) % 10, (s / 10) % 10, s % 10]
  }

  /** The number a four-position display reads as, tenths included. */
  function DigitValue(d: seq<int>): int
    requires |d| == 4
  {
    d[0] * 1000 + d[1] * 100 + d[2] * 10 + d[3]
  }

  /** What the display shows: a blank position reads as 0. */
  function Unblank(d: seq<int>): seq<int>
  {
    seq(|d|, i requires 0 <= i < |d| => if d[i] == SpaceChar then 0 else d[i])
  }

  /** Every digit at positions lo through hi is zero. */
  predicate ZeroBetween(d: seq<int>, lo: int, hi: int)
    requires 0 <= lo && hi < |d|
  {
    forall j :: lo <= j <= hi ==> d[j] == 0
  }

  /** The blanking scan from `position` on: a zero is replaced by the blank
      code and the scan moves on; a nonzero digit, or reaching the tenths
      position, stops it. */
  function BlankLeading(d: seq<int>, position: nat): (r: seq<int>)
    requires |d| == 4 && position <= 3
    ensures |r| == 4
    decreases 3 - position
  {
    if position == 3 || d[position] != 0 then d
    else BlankLeading(d[position := SpaceChar], position + 1)
  }

  /** The scan started at `position` blanks exactly the positions p with
      position <= p < 3 whose digit and all digits between `position` and p
      are zero; every other position keeps its digit. */
  lemma {:induction false} BlankLeadingAt(d: seq<int>, position: nat, i: int)
    requires |d| == 4 && position <= 3 && 0 <= i < 4
    ensures BlankLeading(d, position)[i] ==
              if position <= i < 3 && ZeroBetween(d, position, i) then SpaceChar else d[i]
    decreases 3 - position
  {
    if position == 3 || d[position] != 0 {
    } else {
      var next := d[position := SpaceChar];
      BlankLeadingAt(next, position + 1, i);
      if position + 1 <= i < 3 {
        assert ZeroBetween(next, position + 1, i) <==> ZeroBetween(d, position, i);
      }
    }
  }

  /** The digit codes sent for a temperature: scale, split into decimal
      digits, and blank the leading zeros of the integer positions. */
  function DisplayDigits(temperature: real): (d: seq<int>)
    ensures |d| == 4
    ensures forall i :: 0 <= i < 4 ==> IsDigitCode(d[i])
  {
    BlankLeading(DecimalDigits(Scaled(temperature)), 0)
  }

  /** The blanking rule stated outright for raw digits: position i below the
      tenths is blank exactly when it and every earlier digit are zero, and
      every other position keeps its raw digit. */
  lemma BlankingRule(raw: seq<int>, i: int)
    requires |raw| == 4 && 0 <= i < 4
    ensures BlankLeading(raw, 0)[i] == if i < 3 && ZeroBetween(raw, 0, i) then SpaceChar else raw[i]
  {
    BlankLeadingAt(raw, 0, i);
  }

  /** The displayed codes of any temperature: four codes, each a digit or a
      blank; the tenths is never blank and is the scaled value mod 10; a
      position is blank exactly when it and all earlier digits are zero, and
      from the first nonzero digit on the raw digits are kept. */
  lemma DisplayDigitsRule(temperature: real)
    ensures var d, raw := DisplayDigits(temperature), DecimalDigits(Scaled(temperature));
      && |d| == 4
      && (forall i :: 0 <= i < 4 ==> IsDigitCode(d[i]))
      && d[3] == Scaled(temperature) % 10
      && (forall i :: 0 <= i < 3 ==> (d[i] == SpaceChar <==> ZeroBetween(raw, 0, i)))
      && (forall i, k :: 0 <= k <= i < 4 && raw[k] != 0 ==> d[i] == raw[i])
  {
    var d, raw := DisplayDigits(temperature), DecimalDigits(Scaled(temperature));
    forall i | 0 <= i < 4
      ensures d[i] == if i < 3 && ZeroBetween(raw, 0, i) then SpaceChar else raw[i]
    {
      BlankingRule(raw, i);
    }
  }

  /** A scaled value is recovered from its decimal digits. */
  lemma DecimalDigitsValue(s: nat)
    requires s <= MaxScaled
    ensures DigitValue(DecimalDigits(s)) == s
  {
    var a, b, c := s / 1000, s / 100, s / 10;
    assert s == 10 * c + s % 10;
    assert c == 10 * b + c % 10;
    assert b == 10 * a + b % 10;
    assert a < 10;
    assert (s / 100) % 10 == b % 10 && (s / 10) % 10 == c % 10;
  }

  /** The codes on the display read back, blanks as zeros, as the raw
      decimal digits of the scaled value. */
  lemma DisplayReadsBackAsDigits(temperature: real)
    ensures Unblank(DisplayDigits(temperature)) == DecimalDigits(Scaled(temperature))
  {
    var raw, d := DecimalDigits(Scaled(temperature)), DisplayDigits(temperature);
    forall i | 0 <= i < 4 ensures Unblank(d)[i] == raw[i] {
      BlankingRule(raw, i);
    }
  }

  /** Reading the blanks as zeros gives back the scaled value: the display
      shows Scaled(temperature) / 10 with one decimal. */
  lemma DisplayRoundTrip(temperature: real)
    ensures DigitValue(Unblank(DisplayDigits(temperature))) == Scaled(temperature)
  {
    DisplayReadsBackAsDigits(temperature);
    DecimalDigitsValue(Scaled(temperature));
  }

  /** Different scaled values give different digit codes. */
  lemma DisplayDigitsInjective(t1: real, t2: real)
    requires Scaled(t1) != Scaled(t2)
    ensures DisplayDigits(t1) != DisplayDigits(t2)
  {
    DisplayRoundTrip(t1);
    DisplayRoundTrip(t2);
  }

  /** Every reading at or below zero looks like 0.0: three blanks and a 0. */
  lemma ClampLow(temperature: real)
    requires temperature <= 0.0
    ensures DisplayDigits(temperature) == DisplayDigits(0.0) == [SpaceChar, SpaceChar, SpaceChar, 0]
  {
    assert Scaled(temperature) == Scaled(0.0) == 0;
    assert DecimalDigits(0) == [0, 0, 0, 0];
  }

  /** Every reading at or above 999.9 saturates at 9999. */
  lemma ClampHigh(temperature: real)
    requires temperature >= 999.9
    ensures DisplayDigits(temperature) == [9, 9, 9, 9]
  {
    assert DecimalDigits(MaxScaled) == [9, 9, 9, 9];
  }

  /** Worked readings: the scaled value is 10·t truncated, not rounded. */
  lemma TruncationExamples()
    ensures Scaled(12.36) == 123 && DisplayDigits(12.36) == [SpaceChar, 1, 2, 3]
    ensures Scaled(23.456) == 234 && DisplayDigits(23.456) == [SpaceChar, 2, 3, 4]
  {
    assert DisplayDigits(12.36) == [SpaceChar, 1, 2, 3] by {
      assert Scaled(12.36) == 123 && DecimalDigits(123) == [0, 1, 2, 3];
    }
    assert DisplayDigits(23.456) == [SpaceChar, 2, 3, 4] by {
      assert Scaled(23.456) == 234 && DecimalDigits(234) == [0, 2, 3, 4];
    }
  }

  /** Worked readings: leading zeros of the integer part are blanked up to
      the first nonzero digit, and the tenths never are. */
  lemma BlankingExamples()
    ensures DisplayDigits(7.2) == [SpaceChar, SpaceChar, 7, 2]
    ensures DisplayDigits(0.3) == [SpaceChar, SpaceChar, SpaceChar, 3]
    ensures DisplayDigits(0.0) == [SpaceChar, SpaceChar, SpaceChar, 0]
    ensures DisplayDigits(99.9) == [SpaceChar, 9, 9, 9]
    ensures DisplayDigits(100.0) == [1, 0, 0, 0]
  {
    assert Scaled(7.2) == 72 && DecimalDigits(72) == [0, 0, 7, 2];
    assert Scaled(0.3) == 3 && DecimalDigits(3) == [0, 0, 0, 3];
    assert Scaled(0.0) == 0 && DecimalDigits(0) == [0, 0, 0, 0];
    assert Scaled(99.9) == 999 && DecimalDigits(999) == [0, 9, 9, 9];
    assert Scaled(100.0) == 1000 && DecimalDigits(1000) == [1, 0, 0, 0];
  }

  /** Computes the digit codes for a temperature in a four-element buffer,
      then blanks positions 0, 1, 2 in turn until the first nonzero digit. */
  method PrepareDisplayDigits(temperature: real) returns (digits: seq<int>)
    ensures digits == DisplayDigits(temperature)
  {
    var scaledValue := Scaled(temperature);
    var digitValues := new int[4];
    digitValues[0] := (scaledValue / 1000) % 10;
    digitValues[1] := (scaledValue / 100) % 10;
    digitValues[2] := (scaledValue / 10) % 10;
    digitValues[3] := scaledValue % 10;
    assert digitValues[..] == DecimalDigits(scaledValue);

    var position := 0;
    while position < 3
      invariant 0 <= position <= 3
      invariant BlankLeading(digitValues[..], position) == DisplayDigits(temperature)
    {
      if digitValues[position] == 0 {
        digitValues[position] := SpaceChar;
      } else {
        break;
      }
      position := position + 1;
    }
    digits := digitValues[..];
  }
}
