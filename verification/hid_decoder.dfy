/**
 * The Wiegand decoder for an HID MiniProx reader.
 *
 * The reader signals each bit of a card as a pulse on one of two lines: a pulse on DATA0 is a zero,
 * a pulse on DATA1 a one. Every pulse shifts one bit into the low end of a 32-bit accumulator and
 * records when it arrived. A polling loop watches the clock: once the lines have been quiet for
 * longer than the transmission timeout and something nonzero has been accumulated, it hands the
 * accumulated word on as a card and starts over from zero.
 *
 * The decoder is an immutable record; the interrupt handler and one iteration of the polling loop
 * are pure step functions that take the interrupt's time and the clock reading as parameters.
 */
module HidDecoder {
  import opened Bits
  import opened Wrappers
  import H10301
  import Text

  /** Clock readings are counted in ticks of 100 nanoseconds. */
  const TicksPerMillisecond: int := 10_000

  /** How long the lines must be quiet before the accumulated bits count as a finished card: 500 ms. */
  const TransmissionTimeout: int := 500 * TicksPerMillisecond

  /**
   * The pin ids of the DATA0 and DATA1 lines, the time of the last accepted pulse and the bits
   * accumulated since the last card was handed on.
   */
  datatype Decoder = Decoder(data0Port: int, data1Port: int, lastTransmissionTime: int, rawData: bv32)

  /** A pulse on pin `port` at clock reading `time`. */
  datatype Interrupt = Interrupt(port: int, time: int)

  /**
   * The error raised for a pulse on a pin that is neither of the decoder's two lines: the name of
   * the offending parameter and a message naming the two pins.
   */
  datatype PortError = PortOutOfRange(paramName: string, message: string)

  /**
   * The error message exactly as the handler builds it. The last pin number runs straight into
   * the word after it: there is no space before "for DATA1".
   */
  function PortErrorMessageAsWritten(data0Port: int, data1Port: int): (s: string)
    ensures |s| >= 9 && s[|s| - 9..] == "for DATA1"
    ensures s[..|s| - 9] + " " + s[|s| - 9..] == PortErrorMessage(data0Port, data1Port)
  {
    var head := "The value of \"port\" must be either " + Text.SignedDecimal(data0Port) + " for DATA0, or "
      + Text.SignedDecimal(data1Port);
    MissingSpace(head);
    head + "for DATA1"
  }

  /** Text ending in "for DATA1" gains the intended space when one is put back in front of that ending. */
  lemma MissingSpace(head: string)
    ensures var s := head + "for DATA1";
      |s| >= 9 && s[|s| - 9..] == "for DATA1" && s[..|s| - 9] == head
    ensures head + " " + "for DATA1" == head + " for DATA1"
  {
  }

  /** The error message as evidently intended, with a space before "for DATA1". */
  function PortErrorMessage(data0Port: int, data1Port: int): string
  {
    "The value of \"port\" must be either " + Text.SignedDecimal(data0Port) + " for DATA0, or "
      + Text.SignedDecimal(data1Port) + " for DATA1"
  }

  /**
   * A decoder listening on the two given pins, with nothing accumulated and the last pulse at the
   * clock's origin. Nothing requires the two pins to differ.
   */
  function Create(data0Port: int, data1Port: int): (d: Decoder)
    ensures d.data0Port == data0Port && d.data1Port == data1Port
    ensures d.rawData == 0 && d.lastTransmissionTime == 0
  {
    Decoder(data0Port, data1Port, 0, 0)
  }

  /**
   * A zero bit enters at bit 0 and every earlier bit moves up one position; the top bit falls
   * off.
   */
  function ClearNextCardNumberBit(rawData: bv32): (r: bv32)
    ensures !Bit(r, 0)
    ensures forall i: bv8 :: 0 < i < 32 ==> Bit(r, i) == Bit(rawData, i - 1)
  {
    rawData << 1
  }

  /**
   * A one bit enters at bit 0 and every earlier bit moves up one position; the top bit falls
   * off.
   */
  function SetNextCardNumberBit(rawData: bv32): (r: bv32)
    ensures Bit(r, 0)
    ensures forall i: bv8 :: 0 < i < 32 ==> Bit(r, i) == Bit(rawData, i - 1)
  {
    (rawData << 1) | 1
  }

  /**
   * The interrupt handler. A pulse on DATA0 shifts in a zero, otherwise a pulse on DATA1 shifts in
   * a one, and either records `time` as the last transmission; DATA0 is checked first, so when the
   * two pins coincide every pulse is a zero. A pulse on any other pin is rejected and changes
   * nothing.
   */
  function OnInterrupt(d: Decoder, port: int, time: int): (r: (Decoder, Option<PortError>))
    ensures r.1.Some? <==> port != d.data0Port && port != d.data1Port
    ensures r.1.Some? ==> r.1.value == PortOutOfRange("port", PortErrorMessageAsWritten(d.data0Port, d.data1Port)) && r.0 == d
    ensures r.1.None? ==> r.0.data0Port == d.data0Port && r.0.data1Port == d.data1Port
    ensures r.1.None? ==> r.0.lastTransmissionTime == time
    ensures r.1.None? ==> (Bit(r.0.rawData, 0) <==> port != d.data0Port)
    ensures r.1.None? ==> forall i: bv8 :: 0 < i < 32 ==> Bit(r.0.rawData, i) == Bit(d.rawData, i - 1)
  {
    if port == d.data0Port then
      (d.(rawData := ClearNextCardNumberBit(d.rawData), lastTransmissionTime := time), None)
    else if port == d.data1Port then
      (d.(rawData := SetNextCardNumberBit(d.rawData), lastTransmissionTime := time), None)
    else
      (d, Some(PortOutOfRange("port", PortErrorMessageAsWritten(d.data0Port, d.data1Port))))
  }

  /**
   * One iteration of the polling loop at clock reading `now`. When more than the timeout has
   * passed since the last pulse and the accumulator is nonzero, exactly one card carrying the
   * accumulated word is handed on and the accumulator is cleared; otherwise nothing happens.
   */
  function Tick(d: Decoder, now: int): (r: (Decoder, Option<H10301.CardData>))
    ensures r.1.Some? <==> now - d.lastTransmissionTime > TransmissionTimeout && d.rawData != 0
    ensures r.1.Some? ==> r.1.value.rawData == d.rawData
    ensures r.1.Some? ==> r.0 == d.(rawData := 0)
    ensures r.1.None? ==> r.0 == d
  {
    if now - d.lastTransmissionTime > TransmissionTimeout && d.rawData != 0 then
      (d.(rawData := 0), Some(H10301.CardData(d.rawData)))
    else
      (d, None)
  }

  /** The interrupts handled in order; a rejected one leaves the decoder as it was. */
  function Deliver(d: Decoder, interrupts: seq<Interrupt>): (r: Decoder)
    ensures r.data0Port == d.data0Port && r.data1Port == d.data1Port
    decreases |interrupts|
  {
    if |interrupts| == 0 then d
    else
      var last := interrupts[|interrupts| - 1];
      OnInterrupt(Deliver(d, interrupts[..|interrupts| - 1]), last.port, last.time).0
  }

  /** The bits shifted in one after the other, the first bit ending up most significant. */
  function Accumulate(rawData: bv32, bits: seq<bool>): bv32
    decreases |bits|
  {
    if |bits| == 0 then rawData
    else
      var before := Accumulate(rawData, bits[..|bits| - 1]);
      if bits[|bits| - 1] then SetNextCardNumberBit(before) else ClearNextCardNumberBit(before)
  }

  /** The bit each interrupt carries for a decoder whose DATA0 pin is `data0Port`. */
  function Received(data0Port: int, interrupts: seq<Interrupt>): (bits: seq<bool>)
    ensures |bits| == |interrupts|
    ensures forall k :: 0 <= k < |bits| ==> bits[k] == (interrupts[k].port != data0Port)
  {
    seq(|interrupts|, k requires 0 <= k < |interrupts| => interrupts[k].port != data0Port)
  }

  /** Two to the `n`. */
  function Pow2(n: nat): (p: nat)
    ensures p >= 1
  {
    if n == 0 then 1 else 2 * Pow2(n - 1)
  }

  /** The number `bits` spell in binary, most significant bit first. */
  function ValueOf(bits: seq<bool>): (v: nat)
    ensures v < Pow2(|bits|)
    decreases |bits|
  {
    if |bits| == 0 then 0 else 2 * ValueOf(bits[..|bits| - 1]) + (if bits[|bits| - 1] then 1 else 0)
  }

  /** Below 2^30, shifting left by one doubles the value, and setting bit 0 then adds one. */
  lemma DoubleValue(x: bv32)
    requires x < 0x4000_0000
    ensures (x << 1) as int == 2 * x as int
    ensures ((x << 1) | 1) as int == 2 * x as int + 1
  {
  }

  /** Below 2^30, shifting in a bit doubles the value and adds the bit, with no bit lost. */
  lemma ShiftInValue(before: bv32, value: nat, bit: bool)
    requires before as int == value && value < 0x4000_0000
    ensures (if bit then SetNextCardNumberBit(before) else ClearNextCardNumberBit(before)) as int
            == 2 * value + (if bit then 1 else 0)
  {
    assert before < 0x4000_0000;
    DoubleValue(before);
  }

  /** 2^30, evaluated in three steps of ten doublings. */
  lemma Pow2Thirty()
    ensures Pow2(30) == 0x4000_0000
  {
    assert Pow2(10) == 0x400;
    assert Pow2(20) == 0x10_0000;
  }

  /** A power of two whose exponent is at most 30 is at most 2^30. */
  lemma {:induction false} Pow2Bound(n: nat)
    requires n <= 30
    ensures Pow2(n) <= 0x4000_0000
    decreases 30 - n
  {
    if n < 30 {
      Pow2Bound(n + 1);
    } else {
      Pow2Thirty();
    }
  }

  /**
   * Starting from an empty accumulator, at most 31 bits shifted in leave the number they spell,
   * read most significant bit first.
   */
  lemma {:induction false} AccumulateValue(bits: seq<bool>)
    requires |bits| <= 31
    ensures Accumulate(0, bits) as int == ValueOf(bits)
    decreases |bits|
  {
    if |bits| > 0 {
      var front := bits[..|bits| - 1];
      AccumulateValue(front);
      Pow2Bound(|front|);
      var before := Accumulate(0, front);
      ShiftInValue(before, ValueOf(front), bits[|bits| - 1]);
    }
  }

  /** Shifting only zeros into an empty accumulator leaves it empty. */
  lemma {:induction false} ZerosStayZero(bits: seq<bool>)
    requires forall k :: 0 <= k < |bits| ==> !bits[k]
    ensures Accumulate(0, bits) == 0
    decreases |bits|
  {
    if |bits| > 0 {
      ZerosStayZero(bits[..|bits| - 1]);
    }
  }

  /** Bits spell a positive number exactly when one of them is set. */
  lemma {:induction false} ValuePositive(bits: seq<bool>)
    ensures ValueOf(bits) > 0 <==> exists k :: 0 <= k < |bits| && bits[k]
    decreases |bits|
  {
    if |bits| > 0 {
      var front := bits[..|bits| - 1];
      ValuePositive(front);
      if exists k :: 0 <= k < |front| && front[k] {
        var k :| 0 <= k < |front| && front[k];
        assert bits[k];
      }
    }
  }

  /**
   * Interrupts that all arrive on one of the decoder's two pins shift in their bits in order, a one
   * exactly for those not on the DATA0 pin, and the last of them sets the last transmission time.
   */
  lemma {:induction false} DeliverAccumulates(d: Decoder, interrupts: seq<Interrupt>)
    requires forall k :: 0 <= k < |interrupts| ==> interrupts[k].port == d.data0Port || interrupts[k].port == d.data1Port
    ensures Deliver(d, interrupts).rawData == Accumulate(d.rawData, Received(d.data0Port, interrupts))
    ensures |interrupts| > 0 ==> Deliver(d, interrupts).lastTransmissionTime == interrupts[|interrupts| - 1].time
    decreases |interrupts|
  {
    if |interrupts| > 0 {
      var front := interrupts[..|interrupts| - 1];
      DeliverAccumulates(d, front);
      assert Received(d.data0Port, interrupts)[..|interrupts| - 1] == Received(d.data0Port, front);
    }
  }

  /**
   * When both lines share one pin, the DATA0 test always wins and every accepted pulse is a zero,
   * so an empty decoder stays empty whatever pulses arrive, on any pins, and never hands on a card.
   */
  lemma {:induction false} EqualPortsNeverEmit(d: Decoder, interrupts: seq<Interrupt>, now: int)
    requires d.data0Port == d.data1Port && d.rawData == 0
    ensures Deliver(d, interrupts).rawData == 0
    ensures Tick(Deliver(d, interrupts), now).1 == None
    decreases |interrupts|
  {
    if |interrupts| > 0 {
      EqualPortsNeverEmit(d, interrupts[..|interrupts| - 1], now);
    }
  }

  /**
   * A frame made only of DATA0 pulses, delivered to an empty accumulator, leaves it empty, so no
   * later tick ever hands on a card for it.
   */
  lemma DataZeroFrameNeverEmitted(d: Decoder, interrupts: seq<Interrupt>, now: int)
    requires d.rawData == 0
    requires forall k :: 0 <= k < |interrupts| ==> interrupts[k].port == d.data0Port
    ensures Deliver(d, interrupts).rawData == 0
    ensures Tick(Deliver(d, interrupts), now).1 == None
  {
    DeliverAccumulates(d, interrupts);
    ZerosStayZero(Received(d.data0Port, interrupts));
  }

  /** A tick that hands on a card leaves nothing to hand on: the next tick, whenever it comes, is idle. */
  lemma EmitsOnce(d: Decoder, now: int, later: int)
    requires Tick(d, now).1.Some?
    ensures Tick(Tick(d, now).0, later) == (Tick(d, now).0, None)
  {
  }

  /** A freshly created decoder hands on nothing, whatever the clock reads. */
  lemma FreshDecoderIsIdle(data0Port: int, data1Port: int, now: int)
    ensures Tick(Create(data0Port, data1Port), now) == (Create(data0Port, data1Port), None)
  {
  }

  /**
   * A whole frame: an empty decoder on two distinct pins receives at most 31 pulses, at least one
   * on DATA1, and the clock is read more than the timeout after the last pulse. That tick hands on
   * exactly one card, whose raw word is the number the pulses spell with DATA1 as one, most
   * significant first, and leaves the accumulator empty.
   */
  lemma FrameEmitted(d: Decoder, interrupts: seq<Interrupt>, now: int)
    requires d.rawData == 0 && d.data0Port != d.data1Port
    requires 0 < |interrupts| <= 31
    requires forall k :: 0 <= k < |interrupts| ==> interrupts[k].port == d.data0Port || interrupts[k].port == d.data1Port
    requires exists k :: 0 <= k < |interrupts| && interrupts[k].port == d.data1Port
    requires now - interrupts[|interrupts| - 1].time > TransmissionTimeout
    ensures var (after, card) := Tick(Deliver(d, interrupts), now);
      && card.Some?
      && card.value.rawData as int == ValueOf(Received(d.data0Port, interrupts))
      && after.rawData == 0
  {
    var bits := Received(d.data0Port, interrupts);
    DeliverAccumulates(d, interrupts);
    AccumulateValue(bits);
    var k :| 0 <= k < |interrupts| && interrupts[k].port == d.data1Port;
    assert bits[k];
    ValuePositive(bits);
  }

  /** No fixed word of the message contains a space, and neither does a rendered pin number. */
  lemma WordsHaveNoSpace(port: int)
    ensures ' ' !in "The" && ' ' !in "value" && ' ' !in "of" && ' ' !in "\"port\""
    ensures ' ' !in "must" && ' ' !in "be" && ' ' !in "either"
    ensures ' ' !in "for" && ' ' !in "DATA0," && ' ' !in "or" && ' ' !in "DATA1"
    ensures ' ' !in Text.SignedDecimal(port)
  {
    var s := Text.SignedDecimal(port);
    assert forall j :: 0 <= j < |s| ==> s[j] != ' ';
  }

  /** The opening of the message, with the spaces between its words made explicit. */
  lemma OpeningShape(rest: string)
    ensures "The value of \"port\" must be either " + rest
            == "The" + [' '] + "value" + [' '] + "of" + [' '] + "\"port\"" + [' ']
               + ("must" + [' '] + ("be" + [' '] + ("either" + [' '] + rest)))
  {
  }

  /** The part naming the DATA0 pin, with the spaces between its words made explicit. */
  lemma MiddleShape(s0: string, rest: string)
    ensures s0 + " for DATA0, or " + rest == s0 + [' '] + "for" + [' '] + "DATA0," + [' '] + "or" + [' '] + rest
  {
  }

  /** The two closings, with the spaces between their words made explicit. */
  lemma ClosingShape(s1: string)
    ensures s1 + " for DATA1" == s1 + [' '] + ("for" + [' '] + "DATA1")
    ensures s1 + "for DATA1" == (s1 + "for") + [' '] + "DATA1"
  {
  }

  /** The opening of the message splits into its seven words, ahead of whatever follows. */
  lemma OpeningWords(rest: string)
    ensures Text.Split("The value of \"port\" must be either " + rest, ' ')
            == ["The", "value", "of", "\"port\"", "must", "be", "either"] + Text.Split(rest, ' ')
  {
    OpeningShape(rest);
    WordsHaveNoSpace(0);
    var tail := "must" + [' '] + ("be" + [' '] + ("either" + [' '] + rest));
    Text.SplitFourWords("The", "value", "of", "\"port\"", ' ', tail);
    Text.SplitWord("must", ' ', "be" + [' '] + ("either" + [' '] + rest));
    Text.SplitWord("be", ' ', "either" + [' '] + rest);
    Text.SplitWord("either", ' ', rest);
  }

  /** The middle of the message names the DATA0 pin and its line, then "or". */
  lemma PinWords(data0Port: int, rest: string)
    ensures Text.Split(Text.SignedDecimal(data0Port) + " for DATA0, or " + rest, ' ')
            == [Text.SignedDecimal(data0Port), "for", "DATA0,", "or"] + Text.Split(rest, ' ')
  {
    var s0 := Text.SignedDecimal(data0Port);
    MiddleShape(s0, rest);
    WordsHaveNoSpace(data0Port);
    Text.SplitFourWords(s0, "for", "DATA0,", "or", ' ', rest);
  }

  /** The end of the intended message names the DATA1 pin and its line as separate words. */
  lemma ClosingWords(data1Port: int)
    ensures Text.Split(Text.SignedDecimal(data1Port) + " for DATA1", ' ') == [Text.SignedDecimal(data1Port), "for", "DATA1"]
  {
    var s1 := Text.SignedDecimal(data1Port);
    ClosingShape(s1);
    WordsHaveNoSpace(data1Port);
    Text.SplitWord(s1, ' ', "for" + [' '] + "DATA1");
    Text.SplitTwoWords("for", "DATA1", ' ');
  }

  /** The end of the message as written: the DATA1 pin and "for" make up one word. */
  lemma ClosingWordsAsWritten(data1Port: int)
    ensures Text.Split(Text.SignedDecimal(data1Port) + "for DATA1", ' ') == [Text.SignedDecimal(data1Port) + "for", "DATA1"]
  {
    var s1 := Text.SignedDecimal(data1Port);
    ClosingShape(s1);
    WordsHaveNoSpace(data1Port);
    assert ' ' !in s1 + "for";
    Text.SplitTwoWords(s1 + "for", "DATA1", ' ');
  }

  /** How a message built from the opening words and the two pins regroups after the opening. */
  lemma Regroup(opening: string, s0: string, middle: string, s1: string, closing: string)
    ensures opening + s0 + middle + s1 + closing == opening + (s0 + middle + (s1 + closing))
  {
  }

  /** The words of a message, given the words its part after the DATA0 pin's "or" splits into. */
  lemma MessageWords(data0Port: int, closing: string, closingWords: seq<string>)
    requires Text.Split(closing, ' ') == closingWords
    ensures Text.Split("The value of \"port\" must be either " + (Text.SignedDecimal(data0Port) + " for DATA0, or " + closing), ' ')
            == ["The", "value", "of", "\"port\"", "must", "be", "either"]
               + [Text.SignedDecimal(data0Port), "for", "DATA0,", "or"] + closingWords
  {
    OpeningWords(Text.SignedDecimal(data0Port) + " for DATA0, or " + closing);
    PinWords(data0Port, closing);
  }

  /**
   * Split at spaces, the message is its seven opening words, then each pin as a word of its own
   * followed by "for" and the line it stands for.
   */
  lemma PortErrorMessageWords(data0Port: int, data1Port: int)
    ensures Text.Split(PortErrorMessage(data0Port, data1Port), ' ')
            == ["The", "value", "of", "\"port\"", "must", "be", "either"]
               + [Text.SignedDecimal(data0Port), "for", "DATA0,", "or"]
               + [Text.SignedDecimal(data1Port), "for", "DATA1"]
  {
    var s0, s1 := Text.SignedDecimal(data0Port), Text.SignedDecimal(data1Port);
    Regroup("The value of \"port\" must be either ", s0, " for DATA0, or ", s1, " for DATA1");
    ClosingWords(data1Port);
    MessageWords(data0Port, s1 + " for DATA1", [s1, "for", "DATA1"]);
  }

  /**
   * Split at spaces, the message as written runs the DATA1 pin into the following "for": the
   * pin number is not a word of its own.
   */
  lemma PortErrorMessageAsWrittenWords(data0Port: int, data1Port: int)
    ensures Text.Split(PortErrorMessageAsWritten(data0Port, data1Port), ' ')
            == ["The", "value", "of", "\"port\"", "must", "be", "either"]
               + [Text.SignedDecimal(data0Port), "for", "DATA0,", "or"]
               + [Text.SignedDecimal(data1Port) + "for", "DATA1"]
  {
    var s0, s1 := Text.SignedDecimal(data0Port), Text.SignedDecimal(data1Port);
    Regroup("The value of \"port\" must be either ", s0, " for DATA0, or ", s1, "for DATA1");
    ClosingWordsAsWritten(data1Port);
    MessageWords(data0Port, s1 + "for DATA1", [s1 + "for", "DATA1"]);
  }

  /**
   * Whatever the pins, the next-to-last word of the message as written is the DATA1 pin number
   * with "for" stuck to it, never the pin number alone, where the intended message has the pin
   * number as the third word from the end.
   */
  lemma GluedPin(data0Port: int, data1Port: int)
    ensures var words := Text.Split(PortErrorMessageAsWritten(data0Port, data1Port), ' ');
      |words| == 13 && words[11] == Text.SignedDecimal(data1Port) + "for"
      && words[11] != Text.SignedDecimal(data1Port)
    ensures var words := Text.Split(PortErrorMessage(data0Port, data1Port), ' ');
      |words| == 14 && words[11] == Text.SignedDecimal(data1Port)
  {
    PortErrorMessageAsWrittenWords(data0Port, data1Port);
    PortErrorMessageWords(data0Port, data1Port);
    var s1 := Text.SignedDecimal(data1Port);
    assert |s1 + "for"| != |s1|;
  }
}
