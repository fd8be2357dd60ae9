# HID MiniProx Wiegand decoder and H10301 card data, in Dafny

A model of the two pieces of logic at the heart of the Netduino HID decoder library:

- **H10301 card data.** A 26-bit H10301 frame sits in the low bits of a 32-bit word:
  - bit 25 is the leading parity bit, which gives even parity over bits 13..25;
  - bits 17..24 hold the facility code;
  - bits 1..16 hold the card number;
  - bit 0 is the trailing parity bit, which gives odd parity over bits 0..12.

  A card exposes the four fields through shift-and-mask accessors. It also exposes a Hamming-weight helper, a parity check built on that helper, and a five-line diagnostic rendering.
- **The Wiegand decoder.** The reader pulses DATA0 for a zero bit and DATA1 for a one bit.
  - Each pulse's interrupt shifts the bit into a 32-bit accumulator and records when it arrived.
  - A pulse on any other pin is an error.
  - A polling loop watches the clock. Once the lines have been quiet for more than 500 ms and the accumulator is nonzero, it hands the accumulated word on as a card and clears the accumulator.

Files:

- `wrappers.dfy`: `Option`.
- `bits.dfy` (module `Bits`): bit positions of a 32-bit word. It also has the reference meaning of a Hamming weight: the number of `true` entries among the 32 bits. `Count` counts the set bits over a range of positions.
- `text.dfy` (module `Text`):
  - decimal rendering;
  - joining lines;
  - splitting text at a separator, with the round trip `Split(Join(lines)) == lines`.
- `h10301.dfy` (module `H10301`): the card.
- `hid_decoder.dfy` (module `HidDecoder`): the decoder.
  - It is an immutable record of the two pin ids, the time of the last accepted pulse and the accumulator.
  - The interrupt handler and one iteration of the polling loop are pure step functions.
  - The interrupt time and the clock reading are passed in as parameters.

Representation choices:

- The raw word is a `bv32` holding the bit pattern of the C# `int`. `<<` drops the top bit, as an unchecked C# shift does.
- C# shifts a negative `int` right arithmetically. Every right shift in the card is followed by a mask that keeps only bits the shift moved down, so a logical shift gives the same result.
- Clock readings are `DateTime` ticks of 100 ns:
  - the 500 ms timeout is 5 000 000 ticks;
  - a new decoder's last transmission time is tick 0, the default `DateTime`.
- Pin ids are integers. The handler compares the `uint` pin of the interrupt with the `int` pin ids numerically, as C# does when it widens both sides to `long`.
- Three facts about the code shape the model:
  - The two pins are never checked to be distinct. When they are equal, the DATA0 test comes first, so every pulse is read as a zero.
  - The timeout is a fixed 500 ms field of the decoder, not a constructor parameter.
  - The constructor's only check is that its parameter object is not null. That check is listed under "## Left out", together with `HidDecoderParams`.
- The handler's error message is modelled as the code builds it, including the missing space recorded under "## Findings".

## Model

| member | source | states |
|---|---|---|
| `H10301.CardNumber` | src/AngrySquirrel.Netduino.HidDecoder/H10301CardData.cs:33 | The card number is at most 0xFFFF. Its bit i is bit i+1 of the raw word for i < 16, and every higher bit is clear. |
| `H10301.FacilityCode` | src/AngrySquirrel.Netduino.HidDecoder/H10301CardData.cs:41 | The facility code is at most 0xFF. Its bit i is bit i+17 of the raw word for i < 8, and every higher bit is clear. |
| `H10301.LeadingParityBit` | src/AngrySquirrel.Netduino.HidDecoder/H10301CardData.cs:49 | The leading parity bit is 0 or 1, and it is 1 exactly when bit 25 of the raw word is set. |
| `H10301.TrailingParityBit` | src/AngrySquirrel.Netduino.HidDecoder/H10301CardData.cs:62 | The trailing parity bit is 0 or 1, and it is 1 exactly when bit 0 of the raw word is set. |
| `H10301.FromFields` | src/AngrySquirrel.Netduino.HidDecoder/H10301CardData.cs:31-63 | Take in-range parity bits, a facility code below 256 and a card number below 65536, and lay them out by shifting each into position and or-ing them together. Each of the four accessors reads its field back unchanged, and nothing above bit 25 is set. |
| `H10301.FieldsDetermineFrame` | src/AngrySquirrel.Netduino.HidDecoder/H10301CardData.cs:31-63 | Laying out a card's four fields again rebuilds exactly bits 0..25 of its raw word, which is the other direction of the round trip. |
| `H10301.CalculateHammingWeight` | src/AngrySquirrel.Netduino.HidDecoder/H10301CardData.cs:107-116 | The loop's sum of `x >> i & 1` over i = 0..31 equals the number of set bits among the 32 bits of x, and so lies in 0..32. |
| `H10301.EvenParityGroup` | src/AngrySquirrel.Netduino.HidDecoder/H10301CardData.cs:77 | `raw >> 13 & 0x1FFF` holds exactly bits 13..25 of the raw word, moved down to 0..12, and nothing else. |
| `H10301.OddParityGroup` | src/AngrySquirrel.Netduino.HidDecoder/H10301CardData.cs:78 | `raw & 0x1FFF` holds exactly bits 0..12 of the raw word, and nothing else. |
| `H10301.IsValid` | src/AngrySquirrel.Netduino.HidDecoder/H10301CardData.cs:75-79 | The two parity checks, with the reference popcount `PopCount` standing in where the source calls `CalculateHammingWeight`; the contract of `CalculateHammingWeight` makes the two equal on every word. A valid card has a set bit among bits 0..12, so an all-zero frame is never valid. |
| `H10301.ValidIffParityRule` | src/AngrySquirrel.Netduino.HidDecoder/H10301CardData.cs:75-79 | A card is valid if and only if bits 13..25 hold an even number of ones and bits 0..12 hold an odd number. |
| `H10301.ValidityIgnoresHighBits` | src/AngrySquirrel.Netduino.HidDecoder/H10301CardData.cs:77-78 | Two raw words that agree on bits 0..25 are both valid or both invalid. |
| `H10301.ValidCardExample` | src/AngrySquirrel.Netduino.HidDecoder/H10301CardData.cs:31-79 | The word 0x2020002 has leading parity 1, facility code 1, card number 1 and trailing parity 0, and it is valid. |
| `H10301.SplitRendering` | src/AngrySquirrel.Netduino.HidDecoder/H10301CardData.cs:89-91 | Split at newlines, any rendering gives back exactly five lines, each a label followed by its value. |
| `H10301.ToStringLines` | src/AngrySquirrel.Netduino.HidDecoder/H10301CardData.cs:87-92 | Split at "\n", `ToString` gives exactly five lines in this order: leading parity, facility code, card number, trailing parity, validity. Each line is its label followed by the card's own value, and validity renders as True or False. |
| `H10301.ToString` | src/AngrySquirrel.Netduino.HidDecoder/H10301CardData.cs:87-92 | The five rendered lines joined with "\n" split back at "\n" into exactly those lines. |
| `HidDecoder.ClearNextCardNumberBit` | src/AngrySquirrel.Netduino.HidDecoder/HidDecoder.cs:105-108 | After `raw << 1`, bit 0 is clear and each bit i ≥ 1 is the old bit i-1. The old top bit is lost. |
| `HidDecoder.SetNextCardNumberBit` | src/AngrySquirrel.Netduino.HidDecoder/HidDecoder.cs:144-147 | After `raw << 1` with bit 0 then set, bit 0 is set and each bit i ≥ 1 is the old bit i-1. |
| `HidDecoder.Create` | src/AngrySquirrel.Netduino.HidDecoder/HidDecoder.cs:37-46 | A new decoder keeps the two given pin ids, has an empty accumulator and its last transmission at tick 0, the default `DateTime`. |
| `HidDecoder.PortErrorMessageAsWritten` | src/AngrySquirrel.Netduino.HidDecoder/HidDecoder.cs:134 | The message as built ends in "for DATA1" with nothing between it and the DATA1 pin number; putting one space back in front of that ending gives the intended message. |
| `HidDecoder.OnInterrupt` | src/AngrySquirrel.Netduino.HidDecoder/HidDecoder.cs:122-139 | A pulse is an error if and only if its pin is neither registered pin. An error is an out-of-range error for parameter "port" carrying the message exactly as the source builds it, missing space included, and it leaves the decoder unchanged. An accepted pulse records its time, keeps both pins, shifts every bit up by one, and brings in a one exactly when the pin is not the DATA0 pin. |
| `HidDecoder.Tick` | src/AngrySquirrel.Netduino.HidDecoder/HidDecoder.cs:56-66 | A card is handed on if and only if more than 500 ms have passed since the last pulse and the accumulator is nonzero. It carries the accumulated word, and the accumulator becomes 0. Otherwise the tick changes nothing. |
| `HidDecoder.EmitsOnce` | src/AngrySquirrel.Netduino.HidDecoder/HidDecoder.cs:58-65 | After a tick that hands on a card, the next tick hands on nothing and changes nothing, whatever the clock reads. |
| `HidDecoder.FreshDecoderIsIdle` | src/AngrySquirrel.Netduino.HidDecoder/HidDecoder.cs:20-58 | A newly created decoder never hands on a card, whatever the clock reads. |
| `HidDecoder.Deliver` | src/AngrySquirrel.Netduino.HidDecoder/HidDecoder.cs:14-16 | Handling any sequence of interrupts never changes the two pin ids. |
| `HidDecoder.DeliverAccumulates` | src/AngrySquirrel.Netduino.HidDecoder/HidDecoder.cs:122-147 | Interrupts on the registered pins shift in their bits in arrival order, a one exactly for those not on the DATA0 pin. The last interrupt's time becomes the last transmission time. |
| `HidDecoder.AccumulateValue` | src/AngrySquirrel.Netduino.HidDecoder/HidDecoder.cs:105-147 | Starting from an empty accumulator, feeding at most 31 bits leaves the number those bits spell, read most significant bit first. |
| `HidDecoder.EqualPortsNeverEmit` | src/AngrySquirrel.Netduino.HidDecoder/HidDecoder.cs:124-131 | When both pin ids are equal, an empty decoder stays empty whatever pulses arrive on whatever pins, so no tick ever hands on a card. |
| `HidDecoder.DataZeroFrameNeverEmitted` | src/AngrySquirrel.Netduino.HidDecoder/HidDecoder.cs:56-66 | A frame made only of DATA0 pulses, fed to an empty accumulator, leaves it 0, so no tick hands on a card for it. |
| `HidDecoder.FrameEmitted` | src/AngrySquirrel.Netduino.HidDecoder/HidDecoder.cs:52-71 | The decoder is empty, its pins are distinct, and it receives 1..31 pulses with at least one on DATA1. A tick more than 500 ms after the last pulse then hands on one card whose raw word is the value of the pulses read most significant first, and it empties the accumulator. |
| `HidDecoder.PortErrorMessageWords` | src/AngrySquirrel.Netduino.HidDecoder/HidDecoder.cs:134 | Split at spaces, the corrected error message is the seven opening words, then "pin0 for DATA0, or", then "pin1 for DATA1". Each pin number is a word of its own. |
| `HidDecoder.PortErrorMessageAsWrittenWords` | src/AngrySquirrel.Netduino.HidDecoder/HidDecoder.cs:134 | Split at spaces, the error message as written ends with the words "pin1for" and "DATA1". |
| `HidDecoder.GluedPin` | src/AngrySquirrel.Netduino.HidDecoder/HidDecoder.cs:134 | For every pair of pins, the 12th word of the message as written is the DATA1 pin number with "for" attached, never the pin number alone. In the corrected message that word is the pin number. |

## Left out

- The background thread, its `while (true)` loop, `Thread.Sleep(5)` and the reading of `DateTime.Now` are left out. One iteration of the loop is `Tick`, and the clock reading is its parameter.
- The interrupt threads and the polling thread share the accumulator without synchronisation. This is a concurrency concern and is not modelled; every step runs to completion before the next.
- The `CardDecoded` event, its delegate and `CardDecodedEventArgs` are left out. A handed-on card is the `Some` output of `Tick`. The source clears the accumulator whether or not a handler is subscribed, and so does the model.
- `HidDecoderParams` is not modelled: it only checks that two hardware interrupt ports are non-null. The decoder's null check on it and the wiring of the two handlers are left out too, and `Create` takes the two pin ids directly.
- `src/Example/Program.cs` is left out. It sets up GPIO pins and prints to the debug console.
- The `data` argument of the interrupt handler (the pin level) is not a parameter of `OnInterrupt`, because the source never reads it.
- An exception thrown by the handler becomes the `Some(PortOutOfRange(..))` output of `OnInterrupt`. What the platform does with an uncaught exception in an interrupt handler is outside the model. `Deliver` assumes a rejected interrupt has no effect and handling continues with the next one.
- `HidDecoder.AccumulateValue`: states the value only for frames of at most 31 bits. The bit-level contracts of `ClearNextCardNumberBit` and `SetNextCardNumberBit` cover longer frames: a 32nd bit lands in the sign bit, and earlier bits fall off the top.
- Text rendering uses the model's own decimal and signed decimal functions. Their contracts only guarantee digits, an optional leading minus sign and length; culture-specific formatting is not modelled.
- `DateTime` range limits and `TimeSpan` overflow are not modelled: times are unbounded integers of ticks.

## Findings

| source | as written | input that shows it | evidently intended | confidence | as-written member | corrected member |
|---|---|---|---|---|---|---|
| src/AngrySquirrel.Netduino.HidDecoder/HidDecoder.cs:134 | The DATA1 pin number is concatenated directly with "for DATA1", with no space between them. | DATA0 on pin 4, DATA1 on pin 5, and a pulse on pin 7: the message ends "or 5for DATA1". | A space before "for DATA1", as the DATA0 half of the message has. | not executed | `HidDecoder.GluedPin` (about `HidDecoder.PortErrorMessageAsWritten`) | `HidDecoder.PortErrorMessageWords` (about `HidDecoder.PortErrorMessage`, the message with the space restored; `OnInterrupt` keeps the message as written) |
