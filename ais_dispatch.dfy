/**
 * `decode_ais_message` of the hand-written AIS decoder: take the sixth
 * comma-separated field of an `!AIVDM` sentence as the armoured payload,
 * unarmour it, read the message type from its first six bits and hand the
 * bit stream to the decoder for that type. Any exception on the way is
 * caught and reported as an error text; a type without a decoder is
 * reported as "not handled".
 */
module AisDispatch {
  import opened Results
  import opened PyStr
  import opened Bits
  import opened SixBit
  import opened AisMessages

  /** What `decode_ais_message` returns, by kind of value. */
  datatype AisOutcome =
    | Decoded(message: AisMessage)     // a decoder's dictionary
    | NoResult                         // a decoder that caught its own error and returned None (types 5, 7)
    | NotHandled(messageType: nat)     // "Message type {t} not handled in this example."
    | DecodeError(error: PyError)      // "Error decoding message: {e}"

  /** The message types the if/elif chain has a branch for: 1 to 27 except 22. */
  predicate Handled(t: nat)
  {
    1 <= t <= 27 && t != 22
  }

  /** The record shape each handled type produces. */
  predicate Describes(t: nat, m: AisMessage)
  {
    if 1 <= t <= 3 then m.PositionReport?
    else if t == 4 || t == 11 then m.BaseStationReport?
    else if t == 5 then m.StaticVoyageData?
    else if t == 6 then m.BinaryAddressed?
    else if t == 7 then m.BinaryAcknowledge?
    else if t == 8 then m.BinaryBroadcast?
    else if t == 9 then m.SarAircraftPosition?
    else if t == 10 then m.UtcDateInquiry?
    else if t == 12 then m.AddressedSafety?
    else if t == 13 then m.Acknowledge?
    else if t == 14 then m.SafetyBroadcast?
    else if t == 15 then m.Interrogation?
    else if t == 16 then m.Assignment?
    else if t == 17 then m.DgnssBinary?
    else if t == 18 then m.GpsCorrection?
    else if t == 19 then m.CpaWarning?
    else if t == 20 then m.UtcInquiry?
    else if t == 21 then m.StaticVessel?
    else if t == 23 then m.SingleSlot?
    else if t == 24 then m.StaticDataPartA? || m.StaticDataPartB?
    else if t == 25 || t == 26 then m.SlotBinary?
    else if t == 27 then m.LongRange?
    else false
  }

  /**
   * The shortest bit stream each type's decoder accepts: one past the
   * start of the last field it reads (424 and 88 for the two decoders that
   * check the length themselves).
   */
  function MinBits(t: nat): nat
  {
    if 1 <= t <= 3 || t == 9 || t == 18 then 129
    else if t == 4 || t == 11 then 108
    else if t == 5 then 424
    else if t == 6 then 73
    else if t == 7 then 88
    else if t == 12 then 71
    else if t == 10 || t == 14 || t == 23 then 9
    else if t == 17 then 62
    else if t == 19 then 117
    else if t == 20 then 57
    else if t == 21 || t == 24 then 155
    else if t == 27 then 95
    else 41
  }

  /**
   * Whether the decoder of type `t` produces a record from `bits`. Type 24
   * part B stops reading at bit 132, so it also accepts 127 to 154 bits.
   */
  predicate LongEnough(t: nat, bits: string)
  {
    |bits| >= MinBits(t) || (t == 24 && |bits| > 126 && BinToNat(bits[38..40]) != 0)
  }

  function FromResult(r: Result<AisMessage, PyError>): AisOutcome
  {
    match r
    case Ok(m) => Decoded(m)
    case Err(e) => DecodeError(e)
  }

  function FromOption(o: Option<AisMessage>): AisOutcome
  {
    match o
    case Some(m) => Decoded(m)
    case None => NoResult
  }

  /**
   * The if/elif chain on the message type `t`, already read from bits [0,6).
   * Types 5 and 7 catch their own errors, so they never yield an error; every
   * other handled type yields one exactly when the stream is too short.
   */
  function Dispatch(t: nat, bits: string): (r: AisOutcome)
    requires Reads(bits, 0, 6, t)
    ensures r.NotHandled? <==> !Handled(t)
    ensures r.NotHandled? ==> r.messageType == t
    ensures r.Decoded? ==> r.message.messageType == t && Describes(t, r.message)
    ensures r.Decoded? && !r.message.BinaryAcknowledge? ==> Reads(bits, 8, 38, r.message.mmsi)
    ensures r.NoResult? ==> t == 5 || t == 7
    ensures IsBits(bits) && Handled(t) ==> (r.Decoded? <==> LongEnough(t, bits))
    ensures IsBits(bits) && (t == 5 || t == 7) ==> !r.DecodeError?
  {
    if 1 <= t <= 3 then FromResult(DecodePositionReport(bits))
    else if t >= 4 then DispatchFrom4(t, bits)
    else NotHandled(t)
  }

  /** The branches of the chain for types 5 and 4 (in the source's order) and what follows them. */
  function DispatchFrom4(t: nat, bits: string): (r: AisOutcome)
    requires Reads(bits, 0, 6, t) && t >= 4
    ensures r.NotHandled? <==> !Handled(t)
    ensures r.NotHandled? ==> r.messageType == t
    ensures r.Decoded? ==> r.message.messageType == t && Describes(t, r.message)
    ensures r.Decoded? && !r.message.BinaryAcknowledge? ==> Reads(bits, 8, 38, r.message.mmsi)
    ensures r.NoResult? ==> t == 5 || t == 7
    ensures IsBits(bits) && Handled(t) ==> (r.Decoded? <==> LongEnough(t, bits))
    ensures IsBits(bits) && (t == 5 || t == 7) ==> !r.DecodeError?
  {
    if t == 5 then
      assert Handled(5) && MinBits(5) == 424;
      assert forall m :: Describes(5, m) <==> m.StaticVoyageData?;
      FromOption(DecodeStaticVoyageData(bits))
    else if t == 4 then
      assert Handled(4) && MinBits(4) == 108;
      assert forall m :: Describes(4, m) <==> m.BaseStationReport?;
      FromResult(DecodeBaseStationReport(bits))
    else DispatchFrom6(t, bits)
  }

  /** The branches of the chain from type 6 on, and its final `else`. */
  function DispatchFrom6(t: nat, bits: string): (r: AisOutcome)
    requires Reads(bits, 0, 6, t) && t >= 6
    ensures r.NotHandled? <==> !Handled(t)
    ensures r.NotHandled? ==> r.messageType == t
    ensures r.Decoded? ==> r.message.messageType == t && Describes(t, r.message)
    ensures r.Decoded? && !r.message.BinaryAcknowledge? ==> Reads(bits, 8, 38, r.message.mmsi)
    ensures r.NoResult? ==> t == 7
    ensures IsBits(bits) && Handled(t) ==> (r.Decoded? <==> LongEnough(t, bits))
    ensures IsBits(bits) && t == 7 ==> !r.DecodeError?
  {
    if t == 6 then
      assert Handled(6) && MinBits(6) == 73;
      assert forall m :: Describes(6, m) <==> m.BinaryAddressed?;
      FromResult(DecodeBinaryAddressed(bits))
    else if t == 8 then
      assert Handled(8) && MinBits(8) == 41;
      assert forall m :: Describes(8, m) <==> m.BinaryBroadcast?;
      FromResult(DecodeBinaryBroadcast(bits))
    else if t == 7 then
      assert Handled(7) && MinBits(7) == 88;
      assert forall m :: Describes(7, m) <==> m.BinaryAcknowledge?;
      FromOption(DecodeBinaryAcknowledge(bits))
    else DispatchFrom9(t, bits)
  }

  /** The branches of the chain for types 9 to 11, and what follows them. */
  function DispatchFrom9(t: nat, bits: string): (r: AisOutcome)
    requires Reads(bits, 0, 6, t) && t >= 9
    ensures r.NotHandled? <==> !Handled(t)
    ensures r.NotHandled? ==> r.messageType == t
    ensures r.Decoded? ==> r.message.messageType == t && Describes(t, r.message)
    ensures r.Decoded? ==> Reads(bits, 8, 38, r.message.mmsi)
    ensures !r.NoResult?
    ensures IsBits(bits) && Handled(t) ==> (r.Decoded? <==> LongEnough(t, bits))
  {
    if t == 9 then
      assert Handled(9) && MinBits(9) == 129;
      assert forall m :: Describes(9, m) <==> m.SarAircraftPosition?;
      FromResult(DecodeSarAircraftPosition(bits))
    else if t == 10 then
      assert Handled(10) && MinBits(10) == 9;
      assert forall m :: Describes(10, m) <==> m.UtcDateInquiry?;
      FromResult(DecodeUtcDateInquiry(bits))
    else if t == 11 then
      assert Handled(11) && MinBits(11) == 108;
      assert forall m :: Describes(11, m) <==> m.BaseStationReport?;
      FromResult(DecodeBaseStationReportUtc(bits))
    else DispatchFrom12(t, bits)
  }

  /** The branches of the chain for types 12 and 13, and what follows them. */
  function DispatchFrom12(t: nat, bits: string): (r: AisOutcome)
    requires Reads(bits, 0, 6, t) && t >= 12
    ensures r.NotHandled? <==> !Handled(t)
    ensures r.NotHandled? ==> r.messageType == t
    ensures r.Decoded? ==> r.message.messageType == t && Describes(t, r.message)
    ensures r.Decoded? ==> Reads(bits, 8, 38, r.message.mmsi)
    ensures !r.NoResult?
    ensures IsBits(bits) && Handled(t) ==> (r.Decoded? <==> LongEnough(t, bits))
  {
    if t == 12 then
      assert Handled(12) && MinBits(12) == 71;
      assert forall m :: Describes(12, m) <==> m.AddressedSafety?;
      FromResult(DecodeAddressedSafety(bits))
    else if t == 13 then
      assert Handled(13) && MinBits(13) == 41;
      assert forall m :: Describes(13, m) <==> m.Acknowledge?;
      FromResult(DecodeAcknowledge(bits))
    else DispatchFrom14(t, bits)
  }

  /** The branches of the chain for types 14 and 15, and what follows them. */
  function DispatchFrom14(t: nat, bits: string): (r: AisOutcome)
    requires Reads(bits, 0, 6, t) && t >= 14
    ensures r.NotHandled? <==> !Handled(t)
    ensures r.NotHandled? ==> r.messageType == t
    ensures r.Decoded? ==> r.message.messageType == t && Describes(t, r.message)
    ensures r.Decoded? ==> Reads(bits, 8, 38, r.message.mmsi)
    ensures !r.NoResult?
    ensures IsBits(bits) && Handled(t) ==> (r.Decoded? <==> LongEnough(t, bits))
  {
    if t == 14 then
      assert Handled(14) && MinBits(14) == 9;
      assert forall m :: Describes(14, m) <==> m.SafetyBroadcast?;
      FromResult(DecodeSafetyBroadcast(bits))
    else if t == 15 then
      assert Handled(15) && MinBits(15) == 41;
      assert forall m :: Describes(15, m) <==> m.Interrogation?;
      FromResult(DecodeInterrogation(bits))
    else DispatchFrom16(t, bits)
  }

  /** The branches of the chain for types 16 and 17, and what follows them. */
  function DispatchFrom16(t: nat, bits: string): (r: AisOutcome)
    requires Reads(bits, 0, 6, t) && t >= 16
    ensures r.NotHandled? <==> !Handled(t)
    ensures r.NotHandled? ==> r.messageType == t
    ensures r.Decoded? ==> r.message.messageType == t && Describes(t, r.message)
    ensures r.Decoded? ==> Reads(bits, 8, 38, r.message.mmsi)
    ensures !r.NoResult?
    ensures IsBits(bits) && Handled(t) ==> (r.Decoded? <==> LongEnough(t, bits))
  {
    if t == 16 then
      assert Handled(16) && MinBits(16) == 41;
      assert forall m :: Describes(16, m) <==> m.Assignment?;
      FromResult(DecodeAssignment(bits))
    else if t == 17 then
      assert Handled(17) && MinBits(17) == 62;
      assert forall m :: Describes(17, m) <==> m.DgnssBinary?;
      FromResult(DecodeDgnssBinary(bits))
    else DispatchFrom18(t, bits)
  }

  /** The branches of the chain for types 18 and 19, and what follows them. */
  function DispatchFrom18(t: nat, bits: string): (r: AisOutcome)
    requires Reads(bits, 0, 6, t) && t >= 18
    ensures r.NotHandled? <==> !Handled(t)
    ensures r.NotHandled? ==> r.messageType == t
    ensures r.Decoded? ==> r.message.messageType == t && Describes(t, r.message)
    ensures r.Decoded? ==> Reads(bits, 8, 38, r.message.mmsi)
    ensures !r.NoResult?
    ensures IsBits(bits) && Handled(t) ==> (r.Decoded? <==> LongEnough(t, bits))
  {
    if t == 18 then
      assert Handled(18) && MinBits(18) == 129;
      assert forall m :: Describes(18, m) <==> m.GpsCorrection?;
      FromResult(DecodeGpsCorrection(bits))
    else if t == 19 then
      assert Handled(19) && MinBits(19) == 117;
      assert forall m :: Describes(19, m) <==> m.CpaWarning?;
      FromResult(DecodeCpaWarning(bits))
    else DispatchFrom20(t, bits)
  }

  /** The branches of the chain for types 20 and 21, and what follows them. */
  function DispatchFrom20(t: nat, bits: string): (r: AisOutcome)
    requires Reads(bits, 0, 6, t) && t >= 20
    ensures r.NotHandled? <==> !Handled(t)
    ensures r.NotHandled? ==> r.messageType == t
    ensures r.Decoded? ==> r.message.messageType == t && Describes(t, r.message)
    ensures r.Decoded? ==> Reads(bits, 8, 38, r.message.mmsi)
    ensures !r.NoResult?
    ensures IsBits(bits) && Handled(t) ==> (r.Decoded? <==> LongEnough(t, bits))
  {
    if t == 20 then
      assert Handled(20) && MinBits(20) == 57;
      assert forall m :: Describes(20, m) <==> m.UtcInquiry?;
      FromResult(DecodeUtcInquiry(bits))
    else if t == 21 then
      assert Handled(21) && MinBits(21) == 155;
      assert forall m :: Describes(21, m) <==> m.StaticVessel?;
      FromResult(DecodeStaticVessel(bits))
    else DispatchFrom23(t, bits)
  }

  /** The branches of the chain for types 23 and 24, and what follows them. */
  function DispatchFrom23(t: nat, bits: string): (r: AisOutcome)
    requires Reads(bits, 0, 6, t) && t >= 22
    ensures r.NotHandled? <==> !Handled(t)
    ensures r.NotHandled? ==> r.messageType == t
    ensures r.Decoded? ==> r.message.messageType == t && Describes(t, r.message)
    ensures r.Decoded? ==> Reads(bits, 8, 38, r.message.mmsi)
    ensures !r.NoResult?
    ensures IsBits(bits) && Handled(t) ==> (r.Decoded? <==> LongEnough(t, bits))
  {
    if t == 23 then
      assert Handled(23) && MinBits(23) == 9;
      assert forall m :: Describes(23, m) <==> m.SingleSlot?;
      FromResult(DecodeSingleSlot(bits))
    else if t == 24 then
      assert Handled(24) && MinBits(24) == 155;
      assert forall m :: Describes(24, m) <==> m.StaticDataPartA? || m.StaticDataPartB?;
      FromResult(DecodeStaticDataReport(bits))
    else DispatchFrom25(t, bits)
  }

  /** The branches of the chain for types 25 and 26, and what follows them. */
  function DispatchFrom25(t: nat, bits: string): (r: AisOutcome)
    requires Reads(bits, 0, 6, t) && (t == 22 || t >= 25)
    ensures r.NotHandled? <==> !Handled(t)
    ensures r.NotHandled? ==> r.messageType == t
    ensures r.Decoded? ==> r.message.messageType == t && Describes(t, r.message)
    ensures r.Decoded? ==> Reads(bits, 8, 38, r.message.mmsi)
    ensures !r.NoResult?
    ensures IsBits(bits) && Handled(t) ==> (r.Decoded? <==> LongEnough(t, bits))
  {
    if t == 25 then
      assert Handled(25) && MinBits(25) == 41;
      assert forall m :: Describes(25, m) <==> m.SlotBinary?;
      FromResult(DecodeSingleSlotBinary(bits))
    else if t == 26 then
      assert Handled(26) && MinBits(26) == 41;
      assert forall m :: Describes(26, m) <==> m.SlotBinary?;
      FromResult(DecodeMultipleSlotBinary(bits))
    else DispatchFrom27(t, bits)
  }

  /** The last branch of the chain, type 27, and its final `else`. */
  function DispatchFrom27(t: nat, bits: string): (r: AisOutcome)
    requires Reads(bits, 0, 6, t) && (t == 22 || t >= 27)
    ensures r.NotHandled? <==> !Handled(t)
    ensures r.NotHandled? ==> r.messageType == t
    ensures r.Decoded? ==> r.message.messageType == t && Describes(t, r.message)
    ensures r.Decoded? ==> Reads(bits, 8, 38, r.message.mmsi)
    ensures !r.NoResult?
    ensures IsBits(bits) && Handled(t) ==> (r.Decoded? <==> LongEnough(t, bits))
  {
    if t == 27 then
      assert Handled(27) && MinBits(27) == 95;
      assert forall m :: Describes(27, m) <==> m.LongRange?;
      FromResult(DecodeLongRange(bits))
    else
      assert !Handled(t);
      NotHandled(t)
  }

  /** `fields[5]` of `nmea_message.split(',')`, or None where that raises IndexError. */
  function Payload(nmea: string): (r: Option<string>)
    ensures r.Some? <==> Count(nmea, ',') >= 5
    ensures r.Some? ==> ',' !in r.value
    ensures r.Some? ==> |Split(nmea, ',')| >= 6 && r.value == Split(nmea, ',')[5]
  {
    SplitCount(nmea, ',');
    var fields := Split(nmea, ',');
    if |fields| < 6 then None else Some(fields[5])
  }

  /**
   * `decode_ais_message`: the unarmouring loop is the method
   * `SixBit.SixbitToBinary`, whose result is `Unarmour(payload)`.
   */
  function DecodeAisMessage(nmea: string): (r: AisOutcome)
    ensures Payload(nmea).None? ==> r == DecodeError(IndexError)
    ensures Payload(nmea).Some? && Payload(nmea).value == "" ==> r == DecodeError(ValueError)
    ensures Payload(nmea).Some? && Unarmour(Payload(nmea).value).Err? ==> r == DecodeError(ValueError)
    ensures r.Decoded? || r.NotHandled? || r.NoResult? ==>
      (Payload(nmea).Some? && Unarmour(Payload(nmea).value).Ok? && Payload(nmea).value != "")
    ensures Payload(nmea).Some? && Payload(nmea).value != "" && Unarmour(Payload(nmea).value).Ok? ==>
      ArmourValue(Payload(nmea).value[0]).Some?
      && Reads(Unarmour(Payload(nmea).value).value, 0, 6, ArmourValue(Payload(nmea).value[0]).value)
      && r == Dispatch(ArmourValue(Payload(nmea).value[0]).value, Unarmour(Payload(nmea).value).value)
  {
    match Payload(nmea)
    case None => DecodeError(IndexError)
    case Some(payload) =>
      match Unarmour(payload)
      case Err(e) => DecodeError(e)
      case Ok(bits) =>
        assert payload != "" ==> Field(bits, 0, 6) == Ok(ArmourValue(payload[0]).value) by {
          if payload != "" {
            GroupValue(payload, 0);
          }
        }
        match Field(bits, 0, 6)
        case Err(e) => DecodeError(e)
        case Ok(t) => Dispatch(t, bits)
  }

  /**
   * The message type the dispatcher switches on is the six-bit value of
   * the first payload character, so it is below 64 and a decoded record,
   * or the "not handled" text, carries exactly that value.
   */
  lemma MessageTypeIsFirstCharacter(nmea: string)
    requires DecodeAisMessage(nmea).Decoded? || DecodeAisMessage(nmea).NotHandled?
    ensures Payload(nmea).Some? && Payload(nmea).value != []
    ensures ArmourValue(Payload(nmea).value[0]).Some?
    ensures DecodeAisMessage(nmea).Decoded? ==>
      DecodeAisMessage(nmea).message.messageType == ArmourValue(Payload(nmea).value[0]).value
    ensures DecodeAisMessage(nmea).NotHandled? ==>
      DecodeAisMessage(nmea).messageType == ArmourValue(Payload(nmea).value[0]).value < 64
  {
    var payload := Payload(nmea).value;
    GroupValue(payload, 0);
  }

  /**
   * A payload of `n` valid characters is a stream of `6 * n` bits, so the
   * record for its first character's type is produced exactly when
   * `6 * n` reaches that type's length.
   */
  lemma DecodedExactlyWhenLongEnough(nmea: string)
    requires Payload(nmea).Some? && Payload(nmea).value != []
    requires Unarmour(Payload(nmea).value).Ok?
    requires Handled(ArmourValue(Payload(nmea).value[0]).value)
    ensures DecodeAisMessage(nmea).Decoded? <==>
      LongEnough(ArmourValue(Payload(nmea).value[0]).value, Unarmour(Payload(nmea).value).value)
  {
    GroupValue(Payload(nmea).value, 0);
  }
}
