/**
 * The 26-bit H10301 card-data layout (bit 0 is the least significant):
 *
 *   bit 25      leading parity (even parity over bits 13..25)
 *   bits 17..24 facility code
 *   bits 1..16  card number
 *   bit 0       trailing parity (odd parity over bits 0..12)
 *
 * A card is an immutable view over the raw 32-bit word the decoder finalized; every word is a card,
 * and a card whose parity does not check out simply reports itself invalid.
 */
module H10301 {
  import opened Bits
  import Text

  /** The raw word as received; its fields are read through the functions below. */
  datatype CardData = CardData(rawData: bv32)

  /** Bits 1..16 of the raw word, moved down to bits 0..15. */
  function CardNumber(card: CardData): (r: bv32)
    ensures r <= 0xFFFF
    ensures forall i: bv8 :: i < 32 ==> Bit(r, i) == (i < 16 && Bit(card.rawData, i + 1))
  {
    (card.rawData >> 1) & 0xFFFF
  }

  /** Bits 17..24 of the raw word, moved down to bits 0..7. */
  function FacilityCode(card: CardData): (r: bv32)
    ensures r <= 0xFF
    ensures forall i: bv8 :: i < 32 ==> Bit(r, i) == (i < 8 && Bit(card.rawData, i + 17))
  {
    (card.rawData >> 17) & 0xFF
  }

  /** Bit 25 of the raw word, as 0 or 1. */
  function LeadingParityBit(card: CardData): (r: bv32)
    ensures r <= 1
    ensures r == 1 <==> Bit(card.rawData, 25)
  {
    (card.rawData >> 25) & 0x1
  }

  /** Bit 0 of the raw word, as 0 or 1. */
  function TrailingParityBit(card: CardData): (r: bv32)
    ensures r <= 1
    ensures r == 1 <==> Bit(card.rawData, 0)
  {
    card.rawData & 0x1
  }

  /** The bits that hold a card: the parity bits and both fields, positions 0..25. */
  const FrameMask: bv32 := 0x3FF_FFFF

  /**
   * The card laid out from its four fields, the inverse of the four accessors: each field reads
   * back as given, and nothing above bit 25 is set.
   */
  function FromFields(leadingParity: bv32, facilityCode: bv32, cardNumber: bv32, trailingParity: bv32): (card: CardData)
    requires leadingParity <= 1 && facilityCode <= 0xFF && cardNumber <= 0xFFFF && trailingParity <= 1
    ensures LeadingParityBit(card) == leadingParity
    ensures FacilityCode(card) == facilityCode
    ensures CardNumber(card) == cardNumber
    ensures TrailingParityBit(card) == trailingParity
    ensures card.rawData <= FrameMask
  {
    CardData((leadingParity << 25) | (facilityCode << 17) | (cardNumber << 1) | trailingParity)
  }

  /** The four fields together determine bits 0..25 of the raw word, and nothing more. */
  lemma FieldsDetermineFrame(card: CardData)
    ensures FromFields(LeadingParityBit(card), FacilityCode(card), CardNumber(card), TrailingParityBit(card)).rawData
            == card.rawData & FrameMask
  {
  }

  /**
   * The number of set bits among the 32 bits of `bitArray`, adding `bitArray >> i & 1` for each
   * position `i` from 0 to 31.
   */
  method CalculateHammingWeight(bitArray: bv32) returns (hammingWeight: nat)
    ensures hammingWeight == PopCount(bitArray)
    ensures hammingWeight <= 32
  {
    hammingWeight := 0;
    var i: bv8 := 0;
    while i < 32
      invariant i <= 32
      invariant hammingWeight == Count(bitArray, 0, i)
    {
      hammingWeight := hammingWeight + ((bitArray >> i) & 0x1) as nat;
      i := i + 1;
    }
    CountAll(bitArray);
    PopCountBound(bitArray);
  }

  /** The upper parity group, bits 13..25, moved down to bits 0..12. */
  function EvenParityGroup(card: CardData): (r: bv32)
    ensures r <= 0x1FFF
    ensures forall i: bv8 :: i < 32 ==> Bit(r, i) == (i < 13 && Bit(card.rawData, i + 13))
  {
    (card.rawData >> 13) & 0x1FFF
  }

  /** The lower parity group, bits 0..12. */
  function OddParityGroup(card: CardData): (r: bv32)
    ensures r <= 0x1FFF
    ensures forall i: bv8 :: i < 32 ==> Bit(r, i) == (i < 13 && Bit(card.rawData, i))
  {
    forall i: bv8 | i < 32 {
      LowGroupBit(card.rawData, i);
    }
    card.rawData & 0x1FFF
  }

  /** Masking with `0x1FFF` keeps bits 0..12. */
  lemma LowGroupBit(x: bv32, i: bv8)
    requires i < 32
    ensures Bit(x & 0x1FFF, i) == (i < 13 && Bit(x, i))
  {
  }

  /**
   * The parity check as the card computes it: Hamming weights of the two 13-bit groups. Odd parity
   * over the lower group needs a one somewhere among bits 0..12, so an all-zero frame is never
   * valid.
   */
  predicate IsValid(card: CardData): (valid: bool)
    ensures valid ==> card.rawData & 0x1FFF != 0
  {
    ZeroHasNoSetBits();
    PopCount(EvenParityGroup(card)) % 2 == 0 && PopCount(OddParityGroup(card)) % 2 == 1
  }

  /**
   * The H10301 parity rule: a card is valid exactly when bits 13..25 hold an even number of ones
   * and bits 0..12 an odd number.
   */
  lemma ValidIffParityRule(card: CardData)
    ensures IsValid(card) <==> Count(card.rawData, 13, 26) % 2 == 0 && Count(card.rawData, 0, 13) % 2 == 1
  {
    FieldCount(card.rawData, EvenParityGroup(card), 13, 13);
    FieldCount(card.rawData, OddParityGroup(card), 0, 13);
  }

  /** Validity looks at bits 0..25 only: cards that agree there are both valid or both invalid. */
  lemma ValidityIgnoresHighBits(a: CardData, b: CardData)
    requires a.rawData & FrameMask == b.rawData & FrameMask
    ensures IsValid(a) <==> IsValid(b)
  {
    assert EvenParityGroup(a) == EvenParityGroup(b);
    assert OddParityGroup(a) == OddParityGroup(b);
  }

  /**
   * The card 0x202_0002 carries facility code 1 and card number 1 with leading parity 1 and
   * trailing parity 0: bits 13..25 hold two ones (bits 17 and 25) and bits 0..12 one (bit 1), so
   * it is valid.
   */
  lemma ValidCardExample()
    ensures var card := CardData(0x202_0002);
      && LeadingParityBit(card) == 1 && FacilityCode(card) == 1
      && CardNumber(card) == 1 && TrailingParityBit(card) == 0
      && IsValid(card)
  {
    ValidIffParityRule(CardData(0x202_0002));
    ExampleCounts();
  }

  /** The set bits of 0x202_0002 are bits 1, 17 and 25. */
  lemma ExampleCounts()
    ensures Count(0x202_0002, 13, 26) == 2 && Count(0x202_0002, 0, 13) == 1
  {
    var x: bv32 := 0x202_0002;
    CountSplit(x, 13, 17, 26);
    CountClear(x, 13, 17);
    CountSplit(x, 17, 18, 26);
    CountSplit(x, 18, 25, 26);
    CountClear(x, 18, 25);
    assert Count(x, 13, 26) == 2;
    CountSplit(x, 0, 1, 13);
    CountSplit(x, 1, 2, 13);
    CountClear(x, 2, 13);
    assert Count(x, 0, 13) == 1;
  }

  /** A boolean as the runtime renders it. */
  function BoolText(b: bool): string
  {
    if b then "True" else "False"
  }

  /** The five lines of the diagnostic rendering, each a label followed by the value. */
  function RenderLines(leadingParity: nat, facilityCode: nat, cardNumber: nat, trailingParity: nat, valid: bool): seq<string>
  {
    [ "Leading Parity Bit: " + Text.Decimal(leadingParity),
      "Facility Code: " + Text.Decimal(facilityCode),
      "Card Number: " + Text.Decimal(cardNumber),
      "Trailing Parity Bit: " + Text.Decimal(trailingParity),
      "Is Valid: " + BoolText(valid) ]
  }

  /** The lines of the diagnostic rendering of `card`. */
  function Lines(card: CardData): seq<string>
  {
    RenderLines(LeadingParityBit(card) as nat, FacilityCode(card) as nat, CardNumber(card) as nat,
                TrailingParityBit(card) as nat, IsValid(card))
  }

  /** The diagnostic rendering: the lines joined by newlines, which split back into those lines. */
  function ToString(card: CardData): (s: string)
    ensures Text.Split(s, '\n') == Lines(card)
  {
    LinesHaveNoNewline(LeadingParityBit(card) as nat, FacilityCode(card) as nat, CardNumber(card) as nat,
                       TrailingParityBit(card) as nat, IsValid(card));
    Text.SplitJoin(Lines(card), '\n');
    Text.Join(Lines(card), '\n')
  }

  /** None of the labels contains a newline. */
  lemma LabelsHaveNoNewline()
    ensures '\n' !in "Leading Parity Bit: " && '\n' !in "Facility Code: " && '\n' !in "Card Number: "
    ensures '\n' !in "Trailing Parity Bit: " && '\n' !in "Is Valid: " + BoolText(true)
    ensures '\n' !in "Is Valid: " + BoolText(false)
  {
  }

  /** No rendered line contains a newline. */
  lemma LinesHaveNoNewline(leadingParity: nat, facilityCode: nat, cardNumber: nat, trailingParity: nat, valid: bool)
    ensures var lines := RenderLines(leadingParity, facilityCode, cardNumber, trailingParity, valid);
      forall j :: 0 <= j < |lines| ==> '\n' !in lines[j]
  {
    LabelsHaveNoNewline();
    Text.NoSeparatorInLine("Leading Parity Bit: ", leadingParity, '\n');
    Text.NoSeparatorInLine("Facility Code: ", facilityCode, '\n');
    Text.NoSeparatorInLine("Card Number: ", cardNumber, '\n');
    Text.NoSeparatorInLine("Trailing Parity Bit: ", trailingParity, '\n');
  }

  /**
   * Split at its newlines, a rendering gives back exactly five lines: leading parity, facility
   * code, card number, trailing parity and validity, in that order, each its label followed by
   * the value.
   */
  lemma SplitRendering(leadingParity: nat, facilityCode: nat, cardNumber: nat, trailingParity: nat, valid: bool)
    ensures var lines := Text.Split(Text.Join(RenderLines(leadingParity, facilityCode, cardNumber, trailingParity, valid), '\n'), '\n');
      && |lines| == 5
      && lines[0] == "Leading Parity Bit: " + Text.Decimal(leadingParity)
      && lines[1] == "Facility Code: " + Text.Decimal(facilityCode)
      && lines[2] == "Card Number: " + Text.Decimal(cardNumber)
      && lines[3] == "Trailing Parity Bit: " + Text.Decimal(trailingParity)
      && lines[4] == "Is Valid: " + BoolText(valid)
  {
    LinesHaveNoNewline(leadingParity, facilityCode, cardNumber, trailingParity, valid);
    Text.SplitJoin(RenderLines(leadingParity, facilityCode, cardNumber, trailingParity, valid), '\n');
  }

  /** `ToString` renders the fields of `card` in the order the layout lists them, one per line. */
  lemma ToStringLines(card: CardData)
    ensures var lines := Text.Split(ToString(card), '\n');
      && |lines| == 5
      && lines[0] == "Leading Parity Bit: " + Text.Decimal(LeadingParityBit(card) as nat)
      && lines[1] == "Facility Code: " + Text.Decimal(FacilityCode(card) as nat)
      && lines[2] == "Card Number: " + Text.Decimal(CardNumber(card) as nat)
      && lines[3] == "Trailing Parity Bit: " + Text.Decimal(TrailingParityBit(card) as nat)
      && lines[4] == "Is Valid: " + BoolText(IsValid(card))
  {
    SplitRendering(LeadingParityBit(card) as nat, FacilityCode(card) as nat, CardNumber(card) as nat,
                   TrailingParityBit(card) as nat, IsValid(card));
  }
}
