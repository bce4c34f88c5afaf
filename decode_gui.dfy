/**
 * The decoding half of the Tk AIS decoder: a dictionary-driven unarmouring
 * loop and a position-report decoder that, unlike the hand-written
 * decoder, sign-extends longitude and latitude. Scaled fields (speed and
 * course in tenths, position in 1/600000 degree) are kept as raw integers.
 */
/** The dictionary the Tk decoder unarmours with, and its agreement with the armour alphabet. */
module GuiDictionary {
  import opened Results
  import opened SixBit

  /**
   * The `six_bit_ascii` dictionary of `nmea_to_binary`, written as the
   * merge of four literals of two source lines each (the same 64 entries).
   */
  const SixBitAscii: map<char, nat> := SixBitAscii0 + SixBitAscii1 + SixBitAscii2 + SixBitAscii3

  const SixBitAscii0: map<char, nat> := map[
    '0' := 0, '1' := 1, '2' := 2, '3' := 3, '4' := 4, '5' := 5, '6' := 6, '7' := 7,
    '8' := 8, '9' := 9, ':' := 10, ';' := 11, '<' := 12, '=' := 13, '>' := 14, '?' := 15]
  const SixBitAscii1: map<char, nat> := map[
    '@' := 16, 'A' := 17, 'B' := 18, 'C' := 19, 'D' := 20, 'E' := 21, 'F' := 22, 'G' := 23,
    'H' := 24, 'I' := 25, 'J' := 26, 'K' := 27, 'L' := 28, 'M' := 29, 'N' := 30, 'O' := 31]
  const SixBitAscii2: map<char, nat> := map[
    'P' := 32, 'Q' := 33, 'R' := 34, 'S' := 35, 'T' := 36, 'U' := 37, 'V' := 38, 'W' := 39,
    '`' := 40, 'a' := 41, 'b' := 42, 'c' := 43, 'd' := 44, 'e' := 45, 'f' := 46, 'g' := 47]
  const SixBitAscii3: map<char, nat> := map[
    'h' := 48, 'i' := 49, 'j' := 50, 'k' := 51, 'l' := 52, 'm' := 53, 'n' := 54, 'o' := 55,
    'p' := 56, 'q' := 57, 'r' := 58, 's' := 59, 't' := 60, 'u' := 61, 'v' := 62, 'w' := 63]

  lemma QuarterKeys0(c: char)
    ensures c in SixBitAscii0 <==> ArmourValue(c).Some? && 0 <= ArmourValue(c).value <= 15
    ensures c in SixBitAscii0 ==> SixBitAscii0[c] == ArmourValue(c).value
  {
  }

  lemma QuarterKeys1(c: char)
    ensures c in SixBitAscii1 <==> ArmourValue(c).Some? && 16 <= ArmourValue(c).value <= 31
    ensures c in SixBitAscii1 ==> SixBitAscii1[c] == ArmourValue(c).value
  {
  }

  lemma QuarterKeys2(c: char)
    ensures c in SixBitAscii2 <==> ArmourValue(c).Some? && 32 <= ArmourValue(c).value <= 47
    ensures c in SixBitAscii2 ==> SixBitAscii2[c] == ArmourValue(c).value
  {
  }

  lemma QuarterKeys3(c: char)
    ensures c in SixBitAscii3 <==> ArmourValue(c).Some? && 48 <= ArmourValue(c).value <= 63
    ensures c in SixBitAscii3 ==> SixBitAscii3[c] == ArmourValue(c).value
  {
  }

  /** The dictionary holds exactly the armour alphabet, each character with its band value. */
  lemma SixBitAsciiIsArmour(c: char)
    ensures c in SixBitAscii <==> ArmourValue(c).Some?
    ensures c in SixBitAscii ==> SixBitAscii[c] == ArmourValue(c).value < 64
  {
    QuarterKeys0(c);
    QuarterKeys1(c);
    QuarterKeys2(c);
    QuarterKeys3(c);
  }
}

module DecodeGui {
  import opened Results
  import opened PyStr
  import opened Bits
  import opened SixBit
  import AisMessages
  import AisDispatch
  import opened GuiDictionary

  /** A payload is in the dictionary exactly when it is in the armour alphabet. */
  lemma AllInDictionary(payload: string)
    ensures (forall i :: 0 <= i < |payload| ==> payload[i] in SixBitAscii)
        <==> (forall i :: 0 <= i < |payload| ==> ArmourValue(payload[i]).Some?)
  {
    forall i | 0 <= i < |payload|
      ensures payload[i] in SixBitAscii <==> ArmourValue(payload[i]).Some?
    {
      SixBitAsciiIsArmour(payload[i]);
    }
  }

  /**
   * The bitstream `nmea_to_binary` returns, or the KeyError a character
   * outside the dictionary raises. It accepts the same payloads as
   * `sixbit_to_binary` and produces the same bits; only the error differs
   * (ValueError from `str.index` there).
   */
  function GuiUnarmour(payload: string): (r: Result<string, PyError>)
    ensures r.Ok? <==> forall i :: 0 <= i < |payload| ==> payload[i] in SixBitAscii
    ensures r.Ok? <==> Unarmour(payload).Ok?
    ensures r.Ok? ==> r.value == Unarmour(payload).value
    ensures r.Err? ==> r.error == KeyError
  {
    AllInDictionary(payload);
    match Unarmour(payload)
    case Ok(bits) => Ok(bits)
    case Err(_) => Err(KeyError)
  }

  /** `nmea_to_binary`: looks each character up in the dictionary and appends `f'{value:06b}'`. */
  method NmeaToBinary(payload: string) returns (r: Result<string, PyError>)
    ensures r == GuiUnarmour(payload)
  {
    var binaryStr := "";
    var k := 0;
    while k < |payload|
      invariant k <= |payload|
      invariant Unarmour(payload[..k]) == Ok(binaryStr)
    {
      assert payload[..k + 1][..k] == payload[..k];
      SixBitAsciiIsArmour(payload[k]);
      if payload[k] !in SixBitAscii {
        return Err(KeyError);
      }
      var value := SixBitAscii[payload[k]];
      binaryStr := binaryStr + NatToBin(value, 6);
      k := k + 1;
    }
    assert payload[..k] == payload;
    return Ok(binaryStr);
  }

  /**
   * The dictionary `decode_ais_position_report` returns. Longitude and
   * latitude are the sign-extended raw values (1/600000 degree), speed and
   * course the raw tenths.
   */
  datatype GuiPositionReport = GuiPositionReport(
    messageType: nat, repeatIndicator: nat, mmsi: nat, navigationalStatus: nat,
    rateOfTurn: nat, speedOverGround: nat, positionAccuracy: nat,
    longitude: int, latitude: int, courseOverGround: nat, trueHeading: nat, timestamp: nat)

  /**
   * A position field read as `int(bits[a:b], 2)` and then, when its sign bit
   * `1 << (b - a - 1)` is set, reduced by `1 << (b - a)`.
   */
  function ReadSigned(bits: string, a: nat, b: nat): (r: Result<int, PyError>)
    ensures r.Ok? <==> Field(bits, a, b).Ok?
    ensures r.Ok? ==> a < b && r.value == SignExtend(Field(bits, a, b).value, b - a)
  {
    var raw :- Field(bits, a, b);
    Ok(SignExtend(raw, b - a))
  }

  /**
   * `decode_ais_position_report`: twelve fields read in order up to the
   * timestamp at bits [137,143); the message type is not checked. A raw
   * longitude with bit 27 set has `1 << 28` subtracted, a raw latitude with
   * bit 26 set has `1 << 27` subtracted.
   */
  function DecodeAisPositionReport(bits: string): (r: Result<GuiPositionReport, PyError>)
    ensures IsBits(bits) ==> (r.Ok? <==> |bits| > 137)
    ensures r.Ok? ==> (AisMessages.Reads(bits, 0, 6, r.value.messageType)
      && AisMessages.Reads(bits, 6, 8, r.value.repeatIndicator)
      && AisMessages.Reads(bits, 8, 38, r.value.mmsi)
      && AisMessages.Reads(bits, 38, 42, r.value.navigationalStatus)
      && AisMessages.Reads(bits, 42, 50, r.value.rateOfTurn)
      && AisMessages.Reads(bits, 50, 60, r.value.speedOverGround)
      && AisMessages.Reads(bits, 60, 61, r.value.positionAccuracy)
      && AisMessages.Reads(bits, 116, 128, r.value.courseOverGround)
      && AisMessages.Reads(bits, 128, 137, r.value.trueHeading)
      && AisMessages.Reads(bits, 137, 143, r.value.timestamp))
    ensures r.Ok? ==> (Field(bits, 61, 89).Ok? && Field(bits, 89, 116).Ok?
      && r.value.longitude == SignExtend(Field(bits, 61, 89).value, 28)
      && r.value.latitude == SignExtend(Field(bits, 89, 116).value, 27))
  {
    var messageType :- Field(bits, 0, 6);
    var repeatIndicator :- Field(bits, 6, 8);
    var mmsi :- Field(bits, 8, 38);
    var navigationalStatus :- Field(bits, 38, 42);
    var rateOfTurn :- Field(bits, 42, 50);
    var speedOverGround :- Field(bits, 50, 60);
    var positionAccuracy :- Field(bits, 60, 61);
    var longitude :- ReadSigned(bits, 61, 89);
    var latitude :- ReadSigned(bits, 89, 116);
    var courseOverGround :- Field(bits, 116, 128);
    var trueHeading :- Field(bits, 128, 137);
    var timestamp :- Field(bits, 137, 143);
    Ok(GuiPositionReport(messageType, repeatIndicator, mmsi, navigationalStatus, rateOfTurn,
      speedOverGround, positionAccuracy, longitude, latitude, courseOverGround, trueHeading, timestamp))
  }

  /** On a complete report the signed position is the two's-complement reading of its bits. */
  lemma PositionIsTwosComplement(bits: string)
    requires IsBits(bits) && |bits| >= 143
    ensures DecodeAisPositionReport(bits).Ok?
    ensures DecodeAisPositionReport(bits).value.longitude == TwosComplement(bits[61..89])
    ensures DecodeAisPositionReport(bits).value.latitude == TwosComplement(bits[89..116])
  {
    SignExtendIsTwosComplement(bits[61..89]);
    SignExtendIsTwosComplement(bits[89..116]);
  }

  /**
   * The two position-report decoders agree on every field they share,
   * except that the hand-written one leaves the position unsigned: where
   * the sign bit is set it reports the raw value, `2^28` (longitude) or
   * `2^27` (latitude) above the signed one.
   */
  lemma PositionDecodersAgree(bits: string)
    requires DecodeAisPositionReport(bits).Ok?
    ensures AisMessages.DecodePositionReport(bits).Ok?
    ensures AisMessages.DecodePositionReport(bits).value.messageType == DecodeAisPositionReport(bits).value.messageType
    ensures AisMessages.DecodePositionReport(bits).value.mmsi == DecodeAisPositionReport(bits).value.mmsi
    ensures AisMessages.DecodePositionReport(bits).value.speedOverGround == DecodeAisPositionReport(bits).value.speedOverGround
    ensures AisMessages.DecodePositionReport(bits).value.courseOverGround == DecodeAisPositionReport(bits).value.courseOverGround
    ensures AisMessages.DecodePositionReport(bits).value.trueHeading == DecodeAisPositionReport(bits).value.trueHeading
    ensures AisMessages.DecodePositionReport(bits).value.longitude ==
      (var lon := DecodeAisPositionReport(bits).value.longitude; if lon < 0 then lon + Pow2(28) else lon)
    ensures AisMessages.DecodePositionReport(bits).value.latitude ==
      (var lat := DecodeAisPositionReport(bits).value.latitude; if lat < 0 then lat + Pow2(27) else lat)
  {
  }

  /** Every field value of a report fits its width (the position as a signed value). */
  predicate InRange(m: GuiPositionReport)
  {
    m.messageType < 64 && m.repeatIndicator < 4 && m.mmsi < Pow2(30) && m.navigationalStatus < 16
    && m.rateOfTurn < 256 && m.speedOverGround < 1024 && m.positionAccuracy < 2
    && -(Pow2(27) as int) <= m.longitude < Pow2(27) && -(Pow2(26) as int) <= m.latitude < Pow2(26)
    && m.courseOverGround < 4096 && m.trueHeading < 512 && m.timestamp < 64
  }

  /** The unsigned field value that sign-extends to `v` at width `w`. */
  function Unsigned(v: int, w: nat): (r: nat)
    requires 0 < w && -(Pow2(w - 1) as int) <= v < Pow2(w - 1)
    ensures r < Pow2(w) && SignExtend(r, w) == v
  {
    assert Pow2(w) == 2 * Pow2(w - 1);
    if v < 0 then v + Pow2(w) else v
  }

  /** The widths of the twelve fields the decoder reads, in bit order. */
  const PositionWidths: seq<nat> := [6, 2, 30, 4, 8, 10, 1, 28, 27, 12, 9, 6]

  /** The unsigned field values of a report, in the order of `PositionWidths`. */
  function FieldValues(m: GuiPositionReport): (r: seq<nat>)
    requires InRange(m)
    ensures |r| == 12
  {
    [m.messageType, m.repeatIndicator, m.mmsi, m.navigationalStatus, m.rateOfTurn,
     m.speedOverGround, m.positionAccuracy, Unsigned(m.longitude, 28), Unsigned(m.latitude, 27),
     m.courseOverGround, m.trueHeading, m.timestamp]
  }

  /** The bit offset of field `k`: the sum of the widths before it. */
  function Offset(widths: seq<nat>, k: nat): nat
    requires k <= |widths|
  {
    if k == 0 then 0 else Offset(widths, k - 1) + widths[k - 1]
  }

  /** Dropping the first field moves every later offset back by its width. */
  lemma {:induction false} OffsetShift(widths: seq<nat>, k: nat)
    requires k < |widths|
    ensures Offset(widths, k + 1) == widths[0] + Offset(widths[1..], k)
    decreases k
  {
    if k > 0 {
      OffsetShift(widths, k - 1);
    }
  }

  /** Offsets grow with the field index. */
  lemma {:induction false} OffsetMonotone(widths: seq<nat>, j: nat, k: nat)
    requires j <= k <= |widths|
    ensures Offset(widths, j) <= Offset(widths, k)
    decreases k
  {
    if j < k {
      OffsetMonotone(widths, j, k - 1);
    }
  }

  /** The concatenated binary forms of `values`, each `widths[k]` digits wide. */
  function Pack(values: seq<nat>, widths: seq<nat>): (r: string)
    requires |values| == |widths|
    ensures IsBits(r) && |r| == Offset(widths, |widths|)
  {
    if values == [] then ""
    else
      OffsetShift(widths, |widths| - 1);
      NatToBin(values[0], widths[0]) + Pack(values[1..], widths[1..])
  }

  /** Field `k` of a packed layout occupies bits [Offset(k), Offset(k+1)). */
  lemma {:induction false} PackField(values: seq<nat>, widths: seq<nat>, k: nat)
    requires |values| == |widths| && k < |widths|
    ensures Offset(widths, k + 1) <= |Pack(values, widths)|
    ensures Pack(values, widths)[Offset(widths, k)..Offset(widths, k + 1)] == NatToBin(values[k], widths[k])
    decreases k
  {
    OffsetMonotone(widths, k + 1, |widths|);
    var head := NatToBin(values[0], widths[0]);
    var rest := Pack(values[1..], widths[1..]);
    assert Pack(values, widths) == head + rest;
    if k == 0 {
      assert (head + rest)[..widths[0]] == head;
    } else {
      OffsetShift(widths, k - 1);
      OffsetShift(widths, k);
      PackField(values[1..], widths[1..], k - 1);
      assert (head + rest)[Offset(widths, k)..Offset(widths, k + 1)]
          == rest[Offset(widths[1..], k - 1)..Offset(widths[1..], k)];
    }
  }

  /** The offsets of the layout: the bit positions the decoder slices at. */
  lemma PositionOffsets()
    ensures Offset(PositionWidths, 1) == 6 && Offset(PositionWidths, 2) == 8 && Offset(PositionWidths, 3) == 38
    ensures Offset(PositionWidths, 4) == 42 && Offset(PositionWidths, 5) == 50 && Offset(PositionWidths, 6) == 60
    ensures Offset(PositionWidths, 7) == 61 && Offset(PositionWidths, 8) == 89 && Offset(PositionWidths, 9) == 116
    ensures Offset(PositionWidths, 10) == 128 && Offset(PositionWidths, 11) == 137 && Offset(PositionWidths, 12) == 143
  {
    assert Offset(PositionWidths, 1) == 6;
    assert Offset(PositionWidths, 2) == 8;
    assert Offset(PositionWidths, 3) == 38;
    assert Offset(PositionWidths, 4) == 42;
    assert Offset(PositionWidths, 5) == 50;
    assert Offset(PositionWidths, 6) == 60;
    assert Offset(PositionWidths, 7) == 61;
    assert Offset(PositionWidths, 8) == 89;
    assert Offset(PositionWidths, 9) == 116;
    assert Offset(PositionWidths, 10) == 128;
    assert Offset(PositionWidths, 11) == 137;
  }

  /** The 143 bits a report encodes to: its field values, packed at their widths. */
  function EncodePositionReport(m: GuiPositionReport): (r: string)
    requires InRange(m)
    ensures |r| == 143 && IsBits(r)
  {
    PositionOffsets();
    Pack(FieldValues(m), PositionWidths)
  }

  /** Field `k` of an encoded report reads back as its value. */
  lemma EncodedFieldReads(m: GuiPositionReport, k: nat)
    requires InRange(m) && k < 12
    requires FieldValues(m)[k] < Pow2(PositionWidths[k])
    ensures Field(EncodePositionReport(m), Offset(PositionWidths, k), Offset(PositionWidths, k + 1)) == Ok(FieldValues(m)[k])
  {
    PackField(FieldValues(m), PositionWidths, k);
    BinToNatOfNatToBin(FieldValues(m)[k], PositionWidths[k]);
  }

  /** The first four fields of an encoded report read back as the report's values. */
  lemma EncodedHeadReads(m: GuiPositionReport)
    requires InRange(m)
    ensures Field(EncodePositionReport(m), 0, 6) == Ok(m.messageType)
    ensures Field(EncodePositionReport(m), 6, 8) == Ok(m.repeatIndicator)
    ensures Field(EncodePositionReport(m), 8, 38) == Ok(m.mmsi)
    ensures Field(EncodePositionReport(m), 38, 42) == Ok(m.navigationalStatus)
  {
    PositionOffsets();
    assert Pow2(2) == 4 && Pow2(4) == 16 && Pow2(6) == 64;
    EncodedFieldReads(m, 0);
    EncodedFieldReads(m, 1);
    EncodedFieldReads(m, 2);
    EncodedFieldReads(m, 3);
  }

  /** Rate of turn, speed and accuracy of an encoded report read back as the report's values. */
  lemma EncodedMotionReads(m: GuiPositionReport)
    requires InRange(m)
    ensures Field(EncodePositionReport(m), 42, 50) == Ok(m.rateOfTurn)
    ensures Field(EncodePositionReport(m), 50, 60) == Ok(m.speedOverGround)
    ensures Field(EncodePositionReport(m), 60, 61) == Ok(m.positionAccuracy)
  {
    PositionOffsets();
    assert Pow2(1) == 2 && Pow2(8) == 256 && Pow2(10) == 1024;
    EncodedFieldReads(m, 4);
    EncodedFieldReads(m, 5);
    EncodedFieldReads(m, 6);
  }

  /** The position of an encoded report reads back as the two's-complement codes of its coordinates. */
  lemma EncodedPositionReads(m: GuiPositionReport)
    requires InRange(m)
    ensures Field(EncodePositionReport(m), 61, 89) == Ok(Unsigned(m.longitude, 28))
    ensures Field(EncodePositionReport(m), 89, 116) == Ok(Unsigned(m.latitude, 27))
  {
    PositionOffsets();
    EncodedFieldReads(m, 7);
    EncodedFieldReads(m, 8);
  }

  /** The last three fields of an encoded report read back as the report's values. */
  lemma EncodedTailReads(m: GuiPositionReport)
    requires InRange(m)
    ensures Field(EncodePositionReport(m), 116, 128) == Ok(m.courseOverGround)
    ensures Field(EncodePositionReport(m), 128, 137) == Ok(m.trueHeading)
    ensures Field(EncodePositionReport(m), 137, 143) == Ok(m.timestamp)
  {
    PositionOffsets();
    assert Pow2(6) == 64 && Pow2(9) == 512 && Pow2(12) == 4096;
    EncodedFieldReads(m, 9);
    EncodedFieldReads(m, 10);
    EncodedFieldReads(m, 11);
  }

  /** Round trip: decoding the encoding of an in-range report gives the report back. */
  lemma DecodeEncode(m: GuiPositionReport)
    requires InRange(m)
    ensures DecodeAisPositionReport(EncodePositionReport(m)) == Ok(m)
  {
    EncodedHeadReads(m);
    EncodedMotionReads(m);
    EncodedPositionReads(m);
    EncodedTailReads(m);
  }

  /**
   * `decode_nmea` without its window: the sixth comma-separated field is the
   * payload, which is unarmoured and decoded as a position report whatever
   * its message type.
   */
  function DecodeNmea(nmea: string): (r: Result<GuiPositionReport, PyError>)
    ensures AisDispatch.Payload(nmea).None? ==> r == Err(IndexError)
    ensures AisDispatch.Payload(nmea).Some? && GuiUnarmour(AisDispatch.Payload(nmea).value).Err? ==> r == Err(KeyError)
    ensures r.Ok? ==> (AisDispatch.Payload(nmea).Some? && 6 * |AisDispatch.Payload(nmea).value| > 137
      && ArmourValue(AisDispatch.Payload(nmea).value[0]) == Some(r.value.messageType))
    ensures AisDispatch.Payload(nmea).Some? && GuiUnarmour(AisDispatch.Payload(nmea).value).Ok? ==>
      r == DecodeAisPositionReport(GuiUnarmour(AisDispatch.Payload(nmea).value).value)
  {
    match AisDispatch.Payload(nmea)
    case None => Err(IndexError)
    case Some(payload) =>
      var bits :- GuiUnarmour(payload);
      assert payload != [] ==> Field(bits, 0, 6) == Ok(ArmourValue(payload[0]).value) by {
        if payload != [] {
          GroupValue(payload, 0);
        }
      }
      DecodeAisPositionReport(bits)
  }
}
