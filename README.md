# AIS payload decoding and NMEA line parsers, modelled in Dafny

This project models the decoding core of a small maritime-data toolkit, with
proofs about the model.

- AIS (Automatic Identification System) messages arrive inside NMEA 0183
  `!AIVDM` sentences. The sixth comma-separated field is a payload written
  in a 6-bit "armour" alphabet.
- The manual decoder in `AIS/AIS_Manual.py` does three things:
  - it unarmours the payload into a string of `'0'`/`'1'` characters;
  - it reads the message type from the first six bits;
  - it dispatches to one of 24 per-type field layouts. These cover ITU-R
    M.1371 message types 1 to 27, except 22.
- The GUI variant in `AIS/Decode_GUI.py` unarmours through a dictionary. It
  always decodes a type 1/2/3 position report, and it sign-extends longitude
  and latitude.
- Two line parsers in `GNSS/` split `$GPRMC` and `$GINAV` sentences into
  their named fields and check the sentence checksum. That checksum is the
  XOR of code points, written as `format(n, '02X')`.

Modules, one file each:

- `Results` (`results.dfy`): `Option`, `Result` and the Python exception
  classes the code can raise: `ValueError`, `IndexError` and `KeyError`.
- `PyStr` (`pystr.dfy`): the Python string operations the code relies on.
  These are clamped slicing, `find`, `startswith`, `split` and `strip`.
- `Bits` (`bits.dfy`): the bitstream and `int(s, 2)`.
  - `Field(bits, a, b)` is `int(bits[a:b], 2)` with Python's slice clamping.
    It gives `ValueError` when the slice is empty.
  - `FieldAt` is `int(bits[i], 2)`. It gives `IndexError` past the end.
  - Also here: two's-complement sign extension.
- `SixBit` (`sixbit.dfy`): `sixbit_to_binary`. `Unarmour` is the
  specification and `SixbitToBinary` is the loop.
- `AisMessages` (`ais_messages.dfy`): one decoder per message layout.
  - Each returns the record, or the error its slicing and `int` calls raise.
  - Types 5 and 7 catch their own errors and return `None`.
- `AisDispatch` (`ais_dispatch.dfy`): `decode_ais_message`.
  - The dispatch chain is split into short segments, in the source's order.
  - Where the source returns a string ("not handled" or "Error decoding"),
    the model returns a tagged outcome.
- `GuiDictionary` and `DecodeGui` (`decode_gui.dfy`): `nmea_to_binary`,
  `decode_ais_position_report` and `decode_nmea`.
  - The dictionary literal is kept as four 16-entry maps.
  - The position decoder gets an encoder, and the round trip between the
    two is proved.
- `NmeaChecksum` (`nmea_checksum.dfy`): the pieces the GNSS parsers share.
  - Python's integer `^`, with its algebra proved from its bitwise definition.
  - The running XOR, and `format(n, '02X')` with its inverse.
  - The framing `$<tag>,<body>*<hex>\r\n`.
- `Gprmc` (`gprmc.dfy`) and `Ginav` (`ginav.dfy`): the two parsers.
  - `ParseGprmc` and `ParseGinav` state the outcome.
  - `ParseGprmcSentence` and `ParseGinavSentence` carry the source's XOR
    loop and are proved to return that outcome.

Behaviour that follows the code rather than the ITU-R layouts:

- The manual decoders read every position field unsigned. This includes
  longitude and latitude, although the ITU-R layouts make them signed. The
  GUI decoder sign-extends only longitude (28 bits) and latitude (27 bits).
- `DecodeGui.PositionDecodersAgree` states the relation between the two
  variants. The manual value equals the GUI value, or the GUI value plus
  2^28 (longitude) or 2^27 (latitude).
- The source applies no fill-bit trimming and does no multi-sentence
  reassembly, so neither appears in the model.
- `$GINAV` validation XORs only the data fields. The NMEA 0183 checksum also
  covers the `GINAV,` address. As a result, a sentence that carries the
  standard checksum is always reported as failing (`Ginav.RejectsStandardChecksum`).
- `$GPRMC` validation XORs everything between `$` and `*`, which is the
  standard rule.

## Model

| member | source | states |
|---|---|---|
| PyStr.Slice | GNSS/GPRMC.py:6 | `s[a:b]` clamps both bounds to the length: its length is `min(b,len)-a` when non-empty, and it holds the characters of `s` from `a` on |
| PyStr.Find | GNSS/GPRMC.py:29 | `find` answers None exactly when the character is absent; otherwise the index holds it and nothing before it does |
| PyStr.Split | AIS/AIS_Manual.py:450-451 | `split` yields at least one piece, and no piece contains the separator |
| PyStr.JoinSplit | AIS/AIS_Manual.py:450 | joining the pieces of a split with the separator gives the string back |
| PyStr.SplitCount | AIS/AIS_Manual.py:450-451 | a split has one more piece than the string has separators, so `fields[5]` exists exactly when there are five commas |
| PyStr.Strip | AIS/AIS_Manual.py:46 | `strip` leaves no whitespace at either end, keeps a string without whitespace unchanged, and keeps one contiguous window of the string with only whitespace before and after it |
| PyStr.SplitAt | GNSS/GPRMC.py:7 | splitting at the first separator peels off exactly the text before it |
| PyStr.StripPadded | GNSS/GPRMC.py:7 | stripping a word followed by whitespace gives the word |
| Bits.IntBase2 | AIS/AIS_Manual.py:14 | `int(s, 2)` succeeds exactly on a non-empty string of binary digits, with the MSB-first value |
| Bits.Field | AIS/AIS_Manual.py:14-19 | `int(bits[a:b], 2)` succeeds on a bitstream exactly when the clamped slice is non-empty; its value is below `2^(b-a)` and is the binary value of the clamped slice `bits[a:min(b,len)]` |
| Bits.FieldAt | AIS/AIS_Manual.py:96 | `int(bits[i], 2)` succeeds exactly when `i` is inside the stream, with that bit's value |
| Bits.BinToNatOfNatToBin | AIS/AIS_Manual.py:8 | reading back a value written with `'06b'`-style fixed width gives the value |
| Bits.NatToBinOfBinToNat | AIS/AIS_Manual.py:8 | writing the value of a bit string at its own width gives the string back |
| Bits.BinToNatAppend | AIS/AIS_Manual.py:8 | the value of concatenated bit strings is the first shifted by the second's width plus the second |
| Bits.TopBit | AIS/Decode_GUI.py:37 | the test `v & (1 << k)` on a `(k+1)`-bit value holds exactly when `v >= 2^k` |
| Bits.SignExtend | AIS/Decode_GUI.py:37-43 | the adjusted value is negative exactly when the sign bit is set, lies in `[-2^(w-1), 2^(w-1))`, and adding `2^w` back to a negative result gives the raw field |
| Bits.SignExtendIsTwosComplement | AIS/Decode_GUI.py:36-43 | the adjustment equals the two's-complement reading of the field (sign bit weighs `-2^(w-1)`) |
| SixBit.AlphabetBands | AIS/AIS_Manual.py:3 | the 64-character alphabet lists the band `'0'..'W'` and then the band `` '`'..'w' `` |
| SixBit.SixbitIndex | AIS/AIS_Manual.py:7 | `sixbit_map.index(c)` is the character's band value (below 64), or ValueError when it is outside both bands |
| SixBit.ArmourCharacterListed | AIS/AIS_Manual.py:3 | every character with a band value stands at that position of the alphabet |
| SixBit.ListedCharacterValue | AIS/AIS_Manual.py:3 | the character at position `i` of the alphabet carries value `i` |
| SixBit.Unarmour | AIS/AIS_Manual.py:1-10 | unarmouring succeeds exactly when every character is in the alphabet, gives a bitstream of six bits per character, and fails only with ValueError |
| SixBit.UnarmourGroup | AIS/AIS_Manual.py:6-8 | group `i` of the bitstream is the six-bit writing of character `i`'s value |
| SixBit.GroupValue | AIS/AIS_Manual.py:6-8 | reading bits `[6i, 6i+6)` of the bitstream gives character `i`'s value |
| SixBit.SixbitToBinary | AIS/AIS_Manual.py:1-10 | the loop returns exactly `Unarmour(payload)` |
| AisMessages.GroupsRead | AIS/AIS_Manual.py:46 | on a bitstream, all of `n` six-bit groups from bit `from` read exactly when the last one starts inside the stream |
| AisMessages.GroupText | AIS/AIS_Manual.py:46 | the comprehension over `n` six-bit groups from bit `from` succeeds on a bitstream exactly when the last group starts inside it, and otherwise fails with ValueError; character `k` is the value of bits `[from+6k, from+6k+6)` plus the shift |
| AisMessages.SixbitText | AIS/AIS_Manual.py:46 | the `chr(int(...) + shift)` join over `range(from, to, 6)` succeeds on a bitstream exactly when its last group starts inside it, has one character per group, and character `k` is the value of the group at `from+6k` plus the shift |
| AisMessages.ShiftedText | AIS/AIS_Manual.py:46 | `+64` text has no whitespace, so `strip` keeps every group; same success condition |
| AisMessages.ShiftedTextUnstripped | AIS/AIS_Manual.py:46 | the stripped `+64` text is the unstripped join itself, error or text |
| AisMessages.PlainText | AIS/AIS_Manual.py:253 | unshifted text is the `strip` of the unshifted join, fails exactly when the join fails, is no longer than the groups and holds only codes below 64 |
| AisMessages.DecodePositionReport | AIS/AIS_Manual.py:12-29 | succeeds on a bitstream exactly when it is longer than 128 bits; every field is the unsigned value at its offsets |
| AisMessages.StaticVoyageFields | AIS/AIS_Manual.py:34-62 | with 424 bits or more the fields are read; call sign, ship name and destination are the `+64` texts of bits `[70,112)`, `[112,232)` and `[302,422)` |
| AisMessages.DecodeStaticVoyageData | AIS/AIS_Manual.py:32-67 | returns a record exactly when the stream has at least 424 bits (None otherwise, the error being caught); it is the record the field reads give; call sign, ship name and destination are the `+64` texts of bits `[70,112)`, `[112,232)` and `[302,422)`, 7, 20 and 20 characters long |
| AisMessages.BaseStationFields | AIS/AIS_Manual.py:70-88 | the type 4/11 layout succeeds exactly beyond 107 bits; UTC parts and coordinates are unsigned field values |
| AisMessages.DecodeBaseStationReport | AIS/AIS_Manual.py:70-88 | type 4: a record exactly beyond 107 bits, its type read from bits `[0,6)`; MMSI, the six UTC parts (bits 38-78) and the coordinates are the field values, as in the shared layout |
| AisMessages.DecodeBaseStationReportUtc | AIS/AIS_Manual.py:229-247 | type 11: the same layout and the same field reads, including the six UTC parts, with message type fixed at 11 |
| AisMessages.DecodeBinaryAddressed | AIS/AIS_Manual.py:91-107 | a record exactly beyond 72 bits (bit 70 must exist); sequence number below 4, retransmit flag one bit |
| AisMessages.BinaryAcknowledgeFields | AIS/AIS_Manual.py:111-129 | with 88 bits or more the two acknowledged MMSIs and sequence numbers are read |
| AisMessages.DecodeBinaryAcknowledge | AIS/AIS_Manual.py:109-132 | a record exactly when the stream has at least 88 bits, else None; the MMSIs are bits `[8,38)` and `[48,78)` |
| AisMessages.DecodeBinaryBroadcast | AIS/AIS_Manual.py:135-144 | a record exactly beyond 40 bits |
| AisMessages.DecodeSarAircraftPosition | AIS/AIS_Manual.py:147-166 | a record exactly beyond 128 bits; coordinates are unsigned 28/27-bit values |
| AisMessages.DecodeUtcDateInquiry | AIS/AIS_Manual.py:169-176 | a record exactly beyond 8 bits |
| AisMessages.DecodeAddressedSafety | AIS/AIS_Manual.py:179-192 | a record exactly beyond 70 bits (bit 70 must exist) |
| AisMessages.DecodeAcknowledge | AIS/AIS_Manual.py:262-271 | type 13: a record exactly beyond 40 bits |
| AisMessages.DecodeSafetyBroadcast | AIS/AIS_Manual.py:250-259 | type 14: a record exactly beyond 8 bits; the text is the stripped unshifted text from bit 40 on |
| AisMessages.DecodeInterrogation | AIS/AIS_Manual.py:195-204 | a record exactly beyond 40 bits |
| AisMessages.DecodeAssignment | AIS/AIS_Manual.py:274-283 | type 16: a record exactly beyond 40 bits |
| AisMessages.DecodeDgnssBinary | AIS/AIS_Manual.py:286-297 | type 17: a record exactly beyond 61 bits; 21-bit coordinates |
| AisMessages.DecodeGpsCorrection | AIS/AIS_Manual.py:300-317 | type 18: a record exactly beyond 128 bits |
| AisMessages.DecodeCpaWarning | AIS/AIS_Manual.py:320-335 | type 19: a record exactly beyond 116 bits |
| AisMessages.DecodeUtcInquiry | AIS/AIS_Manual.py:338-349 | type 20: a record exactly beyond 56 bits |
| AisMessages.DecodeStaticVessel | AIS/AIS_Manual.py:352-361 | type 21: a record exactly beyond 154 bits; the name is 20 `+64` characters |
| AisMessages.DecodeSingleSlot | AIS/AIS_Manual.py:364-370 | type 23: a record exactly beyond 8 bits, with the MMSI of bits `[8,38)` |
| AisMessages.DecodeStaticDataReport | AIS/AIS_Manual.py:372-395 | type 24: part A (part number 0) needs more than 154 bits, part B more than 126; part A carries the unshifted name text, part B ship type, vendor id and call sign |
| AisMessages.SlotBinaryFields | AIS/AIS_Manual.py:397-408 | the type 25/26 layout succeeds exactly beyond 40 bits, and the data payload is the stream after bit 56 |
| AisMessages.DecodeSingleSlotBinary | AIS/AIS_Manual.py:397-408 | type 25: a record exactly beyond 40 bits |
| AisMessages.DecodeMultipleSlotBinary | AIS/AIS_Manual.py:410-421 | type 26: a record exactly beyond 40 bits |
| AisMessages.DecodeLongRange | AIS/AIS_Manual.py:423-444 | type 27: a record exactly beyond 94 bits; 19-bit coordinates |
| AisDispatch.Dispatch | AIS/AIS_Manual.py:459-508 | "not handled" exactly for types outside 1-27 or 22; a decoded record has the switched type and that type's layout; types 5 and 7 never fail; on a bitstream a record comes exactly when it is long enough for its type |
| AisDispatch.DispatchFrom4 | AIS/AIS_Manual.py:461-464 | the same promises for the branches from type 5/4 on |
| AisDispatch.DispatchFrom6 | AIS/AIS_Manual.py:465-470 | the same promises for the branches from type 6 on |
| AisDispatch.DispatchFrom9 | AIS/AIS_Manual.py:471-476 | the same promises for the branches from type 9 on |
| AisDispatch.DispatchFrom12 | AIS/AIS_Manual.py:477-480 | the same promises for the branches from type 12 on |
| AisDispatch.DispatchFrom14 | AIS/AIS_Manual.py:481-484 | the same promises for the branches from type 14 on |
| AisDispatch.DispatchFrom16 | AIS/AIS_Manual.py:485-488 | the same promises for the branches from type 16 on |
| AisDispatch.DispatchFrom18 | AIS/AIS_Manual.py:489-492 | the same promises for the branches from type 18 on |
| AisDispatch.DispatchFrom20 | AIS/AIS_Manual.py:493-496 | the same promises for the branches from type 20 on |
| AisDispatch.DispatchFrom23 | AIS/AIS_Manual.py:497-500 | the same promises for the branches from type 23 on |
| AisDispatch.DispatchFrom25 | AIS/AIS_Manual.py:501-504 | the same promises for the branches from type 25 on |
| AisDispatch.DispatchFrom27 | AIS/AIS_Manual.py:505-508 | type 27 is decoded; any other remaining type (22, 28 and above) is "not handled" |
| AisDispatch.Payload | AIS/AIS_Manual.py:450-451 | `fields[5]` exists exactly when the sentence has at least five commas; it is the sixth piece of the comma split and holds no comma |
| AisDispatch.DecodeAisMessage | AIS/AIS_Manual.py:446-511 | a missing sixth field is an IndexError, an empty or ill-armoured payload a ValueError; for a valid non-empty payload the outcome is the dispatch of the first character's value on the payload's bitstream |
| AisDispatch.MessageTypeIsFirstCharacter | AIS/AIS_Manual.py:453-457 | the dispatched type is the value of the payload's first character, so it is below 64 |
| AisDispatch.DecodedExactlyWhenLongEnough | AIS/AIS_Manual.py:446-511 | for a handled type, a record is produced exactly when six bits per payload character reach that type's length |
| GuiDictionary.QuarterKeys0 | AIS/Decode_GUI.py:7-8 | the first 16 dictionary entries are exactly the characters of value 0-15, mapped to their values |
| GuiDictionary.QuarterKeys1 | AIS/Decode_GUI.py:9-10 | entries for values 16-31 |
| GuiDictionary.QuarterKeys2 | AIS/Decode_GUI.py:11-12 | entries for values 32-47 |
| GuiDictionary.QuarterKeys3 | AIS/Decode_GUI.py:13-14 | entries for values 48-63 |
| GuiDictionary.SixBitAsciiIsArmour | AIS/Decode_GUI.py:6-15 | the `six_bit_ascii` dictionary holds exactly the armour characters, each mapped to its band value |
| DecodeGui.AllInDictionary | AIS/Decode_GUI.py:18-19 | every payload character is a dictionary key exactly when every one has an armour value |
| DecodeGui.GuiUnarmour | AIS/Decode_GUI.py:4-22 | succeeds exactly when every character is a key, and then gives the same bitstream as `sixbit_to_binary`; fails only with KeyError |
| DecodeGui.NmeaToBinary | AIS/Decode_GUI.py:4-22 | the dictionary loop returns exactly `GuiUnarmour(payload)` |
| DecodeGui.ReadSigned | AIS/Decode_GUI.py:34-43 | the signed read succeeds with the field and is its sign extension at the field's width |
| DecodeGui.DecodeAisPositionReport | AIS/Decode_GUI.py:24-64 | succeeds on a bitstream exactly beyond 137 bits; unsigned fields are the field values; longitude and latitude are the 28- and 27-bit sign extensions |
| DecodeGui.PositionIsTwosComplement | AIS/Decode_GUI.py:34-44 | on 143 bits, longitude and latitude are the two's-complement values of bits `[61,89)` and `[89,116)` |
| DecodeGui.PositionDecodersAgree | AIS/Decode_GUI.py:24-64 | where the GUI decoder succeeds the manual one does too, agrees on unsigned fields, and its coordinates exceed the GUI's by `2^28`/`2^27` exactly when those are negative |
| DecodeGui.Unsigned | AIS/Decode_GUI.py:37-43 | the raw field value for a signed coordinate is below `2^w` and sign-extends back to it |
| DecodeGui.PackField | AIS/Decode_GUI.py:26-48 | in a packed record, field `k` occupies its offset range and is the fixed-width writing of its value |
| DecodeGui.EncodedHeadReads | AIS/Decode_GUI.py:26-29 | the type, repeat indicator, MMSI and navigational status of an encoded report read back as written |
| DecodeGui.EncodedMotionReads | AIS/Decode_GUI.py:30-32 | rate of turn, speed and accuracy read back as written |
| DecodeGui.EncodedPositionReads | AIS/Decode_GUI.py:34-35 | the coordinate fields read back as their raw two's-complement codes |
| DecodeGui.EncodedTailReads | AIS/Decode_GUI.py:46-48 | course, heading and timestamp read back as written |
| DecodeGui.DecodeEncode | AIS/Decode_GUI.py:24-64 | decoding the 143-bit encoding of any in-range report gives the report back |
| DecodeGui.DecodeNmea | AIS/Decode_GUI.py:66-85 | a missing sixth field is an IndexError and a non-key character a KeyError; otherwise the result is the position decoder on the sixth field's bitstream; a decoded report came from more than 137 bits, and its type is the first character's value |
| NmeaChecksum.XorAssociates | GNSS/GPRMC.py:30 | Python's `^` on non-negative integers is associative |
| NmeaChecksum.XorCommutes | GNSS/GPRMC.py:30 | `^` is commutative |
| NmeaChecksum.XorCancel | GNSS/GPRMC.py:30 | XOR-ing the same value onto two numbers keeps them apart |
| NmeaChecksum.XorBelow | GNSS/GPRMC.py:30 | `^` of two `w`-bit numbers is a `w`-bit number |
| NmeaChecksum.XorFold | GNSS/GPRMC.py:28-30 | the running checksum of an ASCII span is below 128 |
| NmeaChecksum.XorFoldAppend | GNSS/GPRMC.py:28-30 | the checksum of a concatenation is the XOR of the parts' checksums |
| NmeaChecksum.DetectsOneChange | GNSS/GPRMC.py:28-30 | changing any one character of a span changes its checksum |
| NmeaChecksum.UpperHex | GNSS/GPRMC.py:33 | hexadecimal writing uses upper-case digits with no leading zero, and reads back as the number |
| NmeaChecksum.Format02X | GNSS/GPRMC.py:33 | `format(n, '02X')` has at least two upper-case hex digits (exactly two below 256), pads only to two, and reads back as `n` |
| NmeaChecksum.UpperHexUnique | GNSS/GPRMC.py:33 | a hex numeral without leading zero is the one written for its value |
| NmeaChecksum.Format02XUnique | GNSS/GPRMC.py:33 | `format(n, '02X')` is the only canonical two-or-more-digit numeral for its value |
| NmeaChecksum.MatchesFormat02X | GNSS/GPRMC.py:46 | a provided string equals `format(n, '02X')` exactly when it is canonical and denotes `n` |
| NmeaChecksum.HexField | GNSS/GPRMC.py:7 | the checksum field followed by CR LF strips to the numeral and holds no `*` or CR |
| NmeaChecksum.FramedStar | GNSS/GPRMC.py:2-7 | in `$<tag>,<body>*<hex>\r\n` the first `*` follows the body and splitting at `*` gives the head and the checksum field |
| NmeaChecksum.FramedSlices | GNSS/GPRMC.py:6 | the slices after the seven-character prefix and between `$` and `*` are the body and `<tag>,<body>` |
| Gprmc.DataPart | GNSS/GPRMC.py:6 | the data part holds no `*` |
| Gprmc.ChecksumSpan | GNSS/GPRMC.py:29 | the checksummed span holds no `*` |
| Gprmc.FixOf | GNSS/GPRMC.py:16-25 | the mode indicator is the tenth field when there is one, else empty |
| Gprmc.ParseGprmc | GNSS/GPRMC.py:1-49 | a wrong prefix is a ValueError; a missing `*` an IndexError; otherwise a report exactly when there are at least nine fields; the calculated checksum is `format(XOR of $..*, '02X')` |
| Gprmc.ParseGprmcSentence | GNSS/GPRMC.py:1-49 | the parser with its XOR loop returns exactly `ParseGprmc(sentence)` |
| Gprmc.PassedMeansChecksum | GNSS/GPRMC.py:27-49 | validation passes exactly when the provided field is a canonical numeral for the XOR of the characters between `$` and `*` |
| Gprmc.FramedPieces | GNSS/GPRMC.py:2-29 | in a framed `$GPRMC` sentence the parser's data part is the body, its span `GPRMC,<body>` and its provided field the checksum numeral |
| Gprmc.ParseFramed | GNSS/GPRMC.py:1-49 | a framed sentence with at least nine fields parses to the body's fields, the provided numeral and the checksum of `GPRMC,<body>` |
| Gprmc.AcceptsChecksummedSentence | GNSS/GPRMC.py:1-49 | a sentence carrying the NMEA checksum is accepted and its fields are the body's pieces |
| Gprmc.RejectsOneChange | GNSS/GPRMC.py:27-49 | a sentence whose body had one character changed after checksumming fails validation |
| Ginav.DataPart | GNSS/GINAV.py:6 | with a `*` present, the data part holds no `*` |
| Ginav.FixOf | GNSS/GINAV.py:25-36 | the fix quality is the first field and the geoidal units the twelfth |
| Ginav.ParseGinav | GNSS/GINAV.py:1-52 | a wrong prefix is a ValueError; a missing `*` an IndexError; otherwise a report exactly when there are at least twelve fields; the calculated checksum is `format(XOR of the data part, '02X')` |
| Ginav.ParseGinavSentence | GNSS/GINAV.py:1-52 | the parser with its XOR loop returns exactly `ParseGinav(sentence)` |
| Ginav.PassedMeansDataChecksum | GNSS/GINAV.py:6-15 | validation passes exactly when the provided field is a canonical numeral for the XOR of the data fields alone |
| Ginav.FramedPieces | GNSS/GINAV.py:2-7 | in a framed `$GINAV` sentence the data part is the body and the provided field the numeral |
| Ginav.ParseFramed | GNSS/GINAV.py:1-52 | a framed sentence with at least twelve fields parses to the body's fields, the numeral and the checksum of the body |
| Ginav.AcceptsDataChecksum | GNSS/GINAV.py:1-52 | a sentence carrying the XOR of its data fields is accepted |
| Ginav.AddressChecksumOdd | GNSS/GINAV.py:6 | the left-out address `GINAV,` XORs to an odd value |
| Ginav.StandardDiffersFromData | GNSS/GINAV.py:9-15 | the checksum over `GINAV,<body>` never equals the checksum over `<body>` |
| Ginav.RejectsStandardChecksum | GNSS/GINAV.py:1-52 | a sentence carrying the NMEA 0183 checksum is always reported as failing |

## Left out

- Scaling to degrees, knots and tenths is left out. The source divides by
  600000, 600 (types 17 and 27) or 10 into floats; the model keeps the
  integer field values.
- The `utc_time` and `utc_date` strings (AIS/AIS_Manual.py:85, 244 and 348)
  are not built. The f-strings zero-pad month, day, hour, minute and second;
  the model keeps the six (or three) integer parts as record fields instead.
- Printed output is left out: the GNSS reports, the error printouts of types
  5 and 7, and exception message texts. The GNSS parsers return their fields
  and the two checksum strings instead of printing them.
- The message strings of `decode_ais_message` are not modelled.
  "Message type N not handled" becomes `NotHandled(N)`, and "Error decoding
  message: ..." becomes `DecodeError(kind)`.
- The Tk window of `AIS/Decode_GUI.py` (entry, text box, message box, main
  loop) is left out: it is I/O. `decode_nmea` takes the sentence as a
  parameter and returns the decoded report or the exception.
- `AIS/AIS_pyais.py` and `AIS/Decode.py` are not part of this model. They
  wrap a third-party decoder.
- `GNSS/GNSS_Receiver.py` and `GNSS/GNSS_Sender.py` are not part of this
  model. They are socket I/O.
- The example sentences and print loops at the end of each file are left out.
- The first `decode_static_data_report` (AIS/AIS_Manual.py:207-227) is left
  out. The definition at line 372 replaces it before any call.
- `int(s, 2)` is modelled only on strings of `'0'`/`'1'` plus the empty
  string. Python also accepts signs, underscores, whitespace and a `0b`
  prefix, but unarmoured input never contains them.
- The `$GINAV` data part when there is no `*` is modelled, as `s[7:-1]`. It
  is never used, because the next line raises IndexError.
- AisDispatch.DecodeAisMessage: the contract does not say which exception a
  too-short stream raises inside a decoder (ValueError for an empty slice,
  IndexError for a missing single bit). It says only that such a stream
  yields a `DecodeError`.
- Fill bits and multi-sentence reassembly are not modelled, because the
  source does neither.
