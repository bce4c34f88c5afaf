/**
 * The per-type layout decoders of the hand-written AIS decoder. Each one
 * reads fixed bit ranges of an unarmoured payload with `int(bits[a:b], 2)`;
 * none of them sign-extends a field, so every longitude and latitude is the
 * unsigned reading. Fields the source divides by a scale (longitude and
 * latitude by 600000 or 600, speed and course by 10) are kept as the raw
 * integer; the divisors are the constants below.
 */
module AisMessages {
  import opened Results
  import opened PyStr
  import opened Bits

  const PositionScale := 600000
  const LowResolutionScale := 600
  const TenthsScale := 10

  datatype UtcTime = UtcTime(year: nat, month: nat, day: nat, hour: nat, minute: nat, second: nat)

  /** The dictionaries the decoders return, one constructor per record shape. */
  datatype AisMessage =
    | PositionReport(messageType: nat, mmsi: nat, longitude: int, latitude: int,
                     speedOverGround: nat, courseOverGround: nat, trueHeading: nat)
    | StaticVoyageData(messageType: nat, mmsi: nat, imoNumber: nat,
                       callSign: string, shipName: string, destination: string)
    | BaseStationReport(messageType: nat, mmsi: nat, utc: UtcTime, longitude: int, latitude: int)
    | BinaryAddressed(messageType: nat, mmsi: nat, sequenceNumber: nat, destinationMmsi: nat,
                      retransmitFlag: nat, applicationId: nat)
    | BinaryAcknowledge(messageType: nat, mmsi1: nat, sequenceNumber1: nat, mmsi2: nat, sequenceNumber2: nat)
    | BinaryBroadcast(messageType: nat, mmsi: nat, applicationId: nat)
    | SarAircraftPosition(messageType: nat, mmsi: nat, altitude: nat, longitude: int, latitude: int,
                          speedOverGround: nat, courseOverGround: nat, trueHeading: nat)
    | UtcDateInquiry(messageType: nat, mmsi: nat)
    | AddressedSafety(messageType: nat, mmsi: nat, sequenceNumber: nat, destinationMmsi: nat, retransmitFlag: nat)
    | Acknowledge(messageType: nat, mmsi: nat, acknowledgedMmsi: nat)
    | SafetyBroadcast(messageType: nat, mmsi: nat, safetyText: string)
    | Interrogation(messageType: nat, mmsi: nat, interrogatedMmsi: nat)
    | Assignment(messageType: nat, mmsi: nat, assignedMmsi1: nat)
    | DgnssBinary(messageType: nat, mmsi: nat, longitude: int, latitude: int)
    | GpsCorrection(messageType: nat, mmsi: nat, longitude: int, latitude: int,
                    speedOverGround: nat, courseOverGround: nat, trueHeading: nat)
    | CpaWarning(messageType: nat, mmsi: nat, longitude: int, latitude: int,
                 speedOverGround: nat, courseOverGround: nat)
    | UtcInquiry(messageType: nat, mmsi: nat, utcYear: nat, utcMonth: nat, utcDay: nat)
    | StaticVessel(messageType: nat, mmsi: nat, vesselName: string)
    | SingleSlot(messageType: nat, mmsi: nat)
    | StaticDataPartA(messageType: nat, mmsi: nat, partNumber: nat, vesselName: string)
    | StaticDataPartB(messageType: nat, mmsi: nat, partNumber: nat, shipType: nat,
                      vendorId: string, callsign: string)
    | SlotBinary(messageType: nat, mmsi: nat, applicationIdentifier: nat, dataPayload: string)
    | LongRange(messageType: nat, mmsi: nat, positionAccuracy: nat, raimFlag: nat,
                longitude: int, latitude: int, speedOverGround: nat, courseOverGround: nat,
                gnssPositionStatus: nat)

  /** The field [a,b) of `bits` is present and its unsigned reading is `v`. */
  predicate Reads(bits: string, a: nat, b: nat, v: int)
  {
    Field(bits, a, b) == Ok(v)
  }

  /** The number of values in `range(from, to, 6)`. */
  function Groups(from: nat, to: nat): nat
  {
    if from >= to then 0 else (to - from + 5) / 6
  }

  /** The last value of a non-empty `range(from, to, 6)`. */
  function LastGroup(from: nat, to: nat): nat
    requires from < to
  {
    from + 6 * ((to - from - 1) / 6)
  }

  /** `int(bits[i:i + 6], 2)` for the group `k` places on from bit `from`. */
  function Group(bits: string, from: nat, k: nat): Result<nat, PyError>
  {
    Field(bits, from + 6 * k, from + 6 * k + 6)
  }

  /** `chr(v + shift)` for the value `v` of a group that reads. */
  function GroupChar(bits: string, from: nat, k: nat, shift: nat): char
    requires shift <= 64
  {
    assert Pow2(6) == 64;
    match Group(bits, from, k)
    case Ok(v) => (v + shift) as char
    case Err(_) => 0 as char
  }

  /** On a bitstream every one of `n` groups reads exactly when the last one starts inside it. */
  lemma GroupsRead(bits: string, from: nat, n: nat)
    ensures IsBits(bits) ==>
      ((forall k :: 0 <= k < n ==> Group(bits, from, k).Ok?) <==> n == 0 || from + 6 * (n - 1) < |bits|)
  {
    if n > 0 && IsBits(bits) {
      assert Group(bits, from, n - 1).Ok? <==> from + 6 * (n - 1) < |bits|;
    }
  }

  /**
   * The list comprehension `[chr(int(bits[i:i + 6], 2) + shift) for i in ...]`
   * over the `n` groups `i = from, from + 6, ...`, joined: character `k` is
   * the value of the group at `from + 6k` plus the shift. Any group that does
   * not read raises ValueError.
   */
  function GroupText(bits: string, from: nat, n: nat, shift: nat): (r: Result<string, PyError>)
    requires shift <= 64
    ensures IsBits(bits) ==> (r.Ok? <==> n == 0 || from + 6 * (n - 1) < |bits|)
    ensures r.Ok? ==> |r.value| == n
    ensures r.Ok? ==> (forall k :: 0 <= k < n ==> shift <= r.value[k] as int < shift + 64)
    ensures r.Ok? ==> forall k :: 0 <= k < n ==>
      Reads(bits, from + 6 * k, from + 6 * k + 6, r.value[k] as int - shift)
    ensures r.Err? ==> r.error == ValueError
  {
    GroupsRead(bits, from, n);
    assert Pow2(6) == 64;
    if forall k :: 0 <= k < n ==> Group(bits, from, k).Ok? then
      Ok(seq(n, k requires 0 <= k < n => GroupChar(bits, from, k, shift)))
    else
      Err(ValueError)
  }

  /** `range(from, to, 6)` has `Groups(from, to)` values, the last being `LastGroup(from, to)`. */
  lemma LastOfGroups(from: nat, to: nat)
    ensures from < to ==> Groups(from, to) >= 1 && LastGroup(from, to) == from + 6 * (Groups(from, to) - 1)
  {
  }

  /**
   * `"".join([chr(int(bits[i:i + 6], 2) + shift) for i in range(from, to, 6)])`:
   * character `k` is the value of the group at `from + 6k` plus the shift.
   */
  function SixbitText(bits: string, from: nat, to: nat, shift: nat): (r: Result<string, PyError>)
    requires shift <= 64
    ensures IsBits(bits) ==> (r.Ok? <==> from >= to || LastGroup(from, to) < |bits|)
    ensures r.Ok? ==> |r.value| == Groups(from, to)
    ensures r.Ok? ==> (forall k :: 0 <= k < |r.value| ==> shift <= r.value[k] as int < shift + 64)
    ensures r.Ok? ==> forall k :: 0 <= k < |r.value| ==>
      Reads(bits, from + 6 * k, from + 6 * k + 6, r.value[k] as int - shift)
  {
    LastOfGroups(from, to);
    GroupText(bits, from, Groups(from, to), shift)
  }

  /** Characters `chr(v + 64)` produces: '@' up to DEL, none of them whitespace. */
  predicate IsShiftedText(s: string)
  {
    forall k :: 0 <= k < |s| ==> 64 <= s[k] as int < 128
  }

  lemma ShiftedTextHasNoSpace(s: string)
    requires IsShiftedText(s)
    ensures forall k :: 0 <= k < |s| ==> !IsSpace(s[k])
  {
  }

  /** Text built with `chr(v + 64)` has no whitespace, so `.strip()` keeps all of it. */
  function ShiftedText(bits: string, from: nat, to: nat): (r: Result<string, PyError>)
    ensures r.Ok? ==> |r.value| == Groups(from, to) && IsShiftedText(r.value)
    ensures IsBits(bits) ==> (r.Ok? <==> from >= to || LastGroup(from, to) < |bits|)
  {
    var text :- SixbitText(bits, from, to, 64);
    assert IsShiftedText(text);
    ShiftedTextHasNoSpace(text);
    Ok(Strip(text))
  }

  /**
   * `.strip()` leaves shifted text as it is: the result is the unstripped
   * text, whose character `k` is the group at `from + 6k` plus 64.
   */
  lemma ShiftedTextUnstripped(bits: string, from: nat, to: nat)
    ensures ShiftedText(bits, from, to) == SixbitText(bits, from, to, 64)
  {
    var text := SixbitText(bits, from, to, 64);
    if text.Ok? {
      assert IsShiftedText(text.value);
      ShiftedTextHasNoSpace(text.value);
    }
  }

  /** `chr(v)` text after `.strip()`: characters below 64, at most one per group. */
  function PlainText(bits: string, from: nat, to: nat): (r: Result<string, PyError>)
    ensures r.Ok? ==> |r.value| <= Groups(from, to)
    ensures r.Ok? ==> (forall k :: 0 <= k < |r.value| ==> r.value[k] as int < 64)
    ensures IsBits(bits) ==> (r.Ok? <==> from >= to || LastGroup(from, to) < |bits|)
    ensures r.Ok? <==> SixbitText(bits, from, to, 0).Ok?
    ensures r.Ok? ==> r.value == Strip(SixbitText(bits, from, to, 0).value)
  {
    var text :- SixbitText(bits, from, to, 0);
    var stripped := Strip(text);
    assert forall k :: 0 <= k < |stripped| ==> stripped[k] as int < 64 by {
      forall k | 0 <= k < |stripped|
        ensures stripped[k] as int < 64
      {
        assert stripped[k] in text;
      }
    }
    Ok(stripped)
  }

  // ---- Types 1, 2, 3 ----

  /** `decode_position_report`: the message type is reported as read, and longitude and latitude are unsigned. */
  function DecodePositionReport(bits: string): (r: Result<AisMessage, PyError>)
    ensures IsBits(bits) ==> (r.Ok? <==> |bits| > 128)
    ensures r.Ok? ==> r.value.PositionReport? && Reads(bits, 0, 6, r.value.messageType)
    ensures r.Ok? ==> (Reads(bits, 8, 38, r.value.mmsi) && Reads(bits, 61, 89, r.value.longitude)
      && Reads(bits, 89, 116, r.value.latitude) && Reads(bits, 50, 60, r.value.speedOverGround)
      && Reads(bits, 116, 128, r.value.courseOverGround) && Reads(bits, 128, 137, r.value.trueHeading))
    ensures r.Ok? ==> (r.value.mmsi < Pow2(30) && r.value.trueHeading < Pow2(9)
      && 0 <= r.value.longitude < Pow2(28) && 0 <= r.value.latitude < Pow2(27))
  {
    var mmsi :- Field(bits, 8, 38);
    var longitude :- Field(bits, 61, 89);
    var latitude :- Field(bits, 89, 116);
    var sog :- Field(bits, 50, 60);
    var cog :- Field(bits, 116, 128);
    var heading :- Field(bits, 128, 137);
    var messageType :- Field(bits, 0, 6);
    Ok(PositionReport(messageType, mmsi, longitude, latitude, sog, cog, heading))
  }

  // ---- Type 5 ----

  /** The `try` body of `decode_static_voyage_data` once the length check has passed. */
  function StaticVoyageFields(bits: string): (r: Result<AisMessage, PyError>)
    ensures IsBits(bits) && |bits| >= 424 ==> r.Ok?
    ensures r.Ok? ==> (r.value.StaticVoyageData? && Reads(bits, 0, 6, r.value.messageType)
      && Reads(bits, 8, 38, r.value.mmsi) && Reads(bits, 40, 70, r.value.imoNumber))
    ensures r.Ok? ==> (ShiftedText(bits, 70, 112) == Ok(r.value.callSign)
      && ShiftedText(bits, 112, 232) == Ok(r.value.shipName)
      && ShiftedText(bits, 302, 422) == Ok(r.value.destination))
  {
    assert LastGroup(70, 112) == 106 && LastGroup(112, 232) == 226 && LastGroup(302, 422) == 416;
    var mmsi :- Field(bits, 8, 38);
    var imo :- Field(bits, 40, 70);
    var callSign :- ShiftedText(bits, 70, 112);
    var shipName :- ShiftedText(bits, 112, 232);
    var destination :- ShiftedText(bits, 302, 422);
    var messageType :- Field(bits, 0, 6);
    Ok(StaticVoyageData(messageType, mmsi, imo, callSign, shipName, destination))
  }

  /**
   * `decode_static_voyage_data`: below 424 bits the ValueError it raises is
   * caught and printed and nothing is returned; the text fields keep their
   * full width because `chr(v + 64)` never produces whitespace.
   */
  function DecodeStaticVoyageData(bits: string): (r: Option<AisMessage>)
    ensures IsBits(bits) ==> (r.Some? <==> |bits| >= 424)
    ensures r.Some? ==> (r.value.StaticVoyageData? && Reads(bits, 0, 6, r.value.messageType)
      && Reads(bits, 8, 38, r.value.mmsi) && r.value.mmsi < Pow2(30)
      && Reads(bits, 40, 70, r.value.imoNumber) && r.value.imoNumber < Pow2(30))
    ensures r.Some? ==> (|r.value.callSign| == 7 && |r.value.shipName| == 20 && |r.value.destination| == 20
      && IsShiftedText(r.value.callSign) && IsShiftedText(r.value.shipName) && IsShiftedText(r.value.destination))
    ensures r.Some? ==> (ShiftedText(bits, 70, 112) == Ok(r.value.callSign)
      && ShiftedText(bits, 112, 232) == Ok(r.value.shipName)
      && ShiftedText(bits, 302, 422) == Ok(r.value.destination))
    ensures r.Some? ==> StaticVoyageFields(bits) == Ok(r.value)
  {
    if |bits| < 424 then None
    else match StaticVoyageFields(bits)
      case Ok(m) => Some(m)
      case Err(_) => None
  }

  // ---- Types 4 and 11 ----

  /** The fields types 4 and 11 share: MMSI, UTC date and time, and an unsigned position. */
  function BaseStationFields(bits: string, messageType: nat): (r: Result<AisMessage, PyError>)
    ensures IsBits(bits) ==> (r.Ok? <==> |bits| > 107)
    ensures r.Ok? ==> (r.value.BaseStationReport? && r.value.messageType == messageType
      && Reads(bits, 8, 38, r.value.mmsi)
      && Reads(bits, 38, 52, r.value.utc.year) && Reads(bits, 52, 56, r.value.utc.month)
      && Reads(bits, 56, 61, r.value.utc.day) && Reads(bits, 61, 66, r.value.utc.hour)
      && Reads(bits, 66, 72, r.value.utc.minute) && Reads(bits, 72, 78, r.value.utc.second)
      && Reads(bits, 79, 107, r.value.longitude) && Reads(bits, 107, 134, r.value.latitude))
    ensures r.Ok? ==> 0 <= r.value.longitude < Pow2(28) && 0 <= r.value.latitude < Pow2(27)
  {
    var mmsi :- Field(bits, 8, 38);
    var year :- Field(bits, 38, 52);
    var month :- Field(bits, 52, 56);
    var day :- Field(bits, 56, 61);
    var hour :- Field(bits, 61, 66);
    var minute :- Field(bits, 66, 72);
    var second :- Field(bits, 72, 78);
    var longitude :- Field(bits, 79, 107);
    var latitude :- Field(bits, 107, 134);
    Ok(BaseStationReport(messageType, mmsi, UtcTime(year, month, day, hour, minute, second), longitude, latitude))
  }

  /** `decode_base_station_report` (type 4): the message type is the one read from bits [0,6). */
  function DecodeBaseStationReport(bits: string): (r: Result<AisMessage, PyError>)
    ensures IsBits(bits) ==> (r.Ok? <==> |bits| > 107)
    ensures r.Ok? ==> (r.value.BaseStationReport? && Reads(bits, 0, 6, r.value.messageType)
      && Reads(bits, 8, 38, r.value.mmsi)
      && Reads(bits, 79, 107, r.value.longitude) && Reads(bits, 107, 134, r.value.latitude))
    ensures r.Ok? ==> (Reads(bits, 38, 52, r.value.utc.year) && Reads(bits, 52, 56, r.value.utc.month)
      && Reads(bits, 56, 61, r.value.utc.day) && Reads(bits, 61, 66, r.value.utc.hour)
      && Reads(bits, 66, 72, r.value.utc.minute) && Reads(bits, 72, 78, r.value.utc.second))
    ensures r.Ok? ==> BaseStationFields(bits, r.value.messageType) == r
  {
    var messageType :- Field(bits, 0, 6);
    BaseStationFields(bits, messageType)
  }

  /** `decode_base_station_report_utc` (type 11): same layout, message type fixed at 11. */
  function DecodeBaseStationReportUtc(bits: string): (r: Result<AisMessage, PyError>)
    ensures IsBits(bits) ==> (r.Ok? <==> |bits| > 107)
    ensures r.Ok? ==> (r.value.BaseStationReport? && r.value.messageType == 11
      && Reads(bits, 8, 38, r.value.mmsi)
      && Reads(bits, 79, 107, r.value.longitude) && Reads(bits, 107, 134, r.value.latitude))
    ensures r.Ok? ==> (Reads(bits, 38, 52, r.value.utc.year) && Reads(bits, 52, 56, r.value.utc.month)
      && Reads(bits, 56, 61, r.value.utc.day) && Reads(bits, 61, 66, r.value.utc.hour)
      && Reads(bits, 66, 72, r.value.utc.minute) && Reads(bits, 72, 78, r.value.utc.second))
    ensures r.Ok? ==> BaseStationFields(bits, 11) == r
  {
    BaseStationFields(bits, 11)
  }

  // ---- Type 6 ----

  /** `decode_binary_addressed`: the retransmit flag is `bits[70]` by index; the spare bit is read and dropped. */
  function DecodeBinaryAddressed(bits: string): (r: Result<AisMessage, PyError>)
    ensures IsBits(bits) ==> (r.Ok? <==> |bits| > 72)
    ensures r.Ok? ==> (r.value.BinaryAddressed? && Reads(bits, 0, 6, r.value.messageType)
      && Reads(bits, 8, 38, r.value.mmsi) && Reads(bits, 38, 40, r.value.sequenceNumber)
      && Reads(bits, 40, 70, r.value.destinationMmsi) && FieldAt(bits, 70) == Ok(r.value.retransmitFlag)
      && Reads(bits, 72, 88, r.value.applicationId))
    ensures r.Ok? ==> r.value.sequenceNumber < 4 && r.value.retransmitFlag < 2
  {
    var mmsi :- Field(bits, 8, 38);
    var sequence :- Field(bits, 38, 40);
    var destination :- Field(bits, 40, 70);
    var retransmit :- FieldAt(bits, 70);
    var _ :- Field(bits, 71, 72);
    var applicationId :- Field(bits, 72, 88);
    var messageType :- Field(bits, 0, 6);
    Ok(BinaryAddressed(messageType, mmsi, sequence, destination, retransmit, applicationId))
  }

  // ---- Type 7 ----

  function BinaryAcknowledgeFields(bits: string): (r: Result<AisMessage, PyError>)
    ensures IsBits(bits) && |bits| >= 88 ==> r.Ok?
    ensures r.Ok? ==> (r.value.BinaryAcknowledge? && r.value.messageType == 7
      && Reads(bits, 8, 38, r.value.mmsi1) && Reads(bits, 40, 48, r.value.sequenceNumber1)
      && Reads(bits, 48, 78, r.value.mmsi2) && Reads(bits, 80, 88, r.value.sequenceNumber2))
  {
    var mmsi1 :- Field(bits, 8, 38);
    var sequence1 :- Field(bits, 40, 48);
    var mmsi2 :- Field(bits, 48, 78);
    var sequence2 :- Field(bits, 80, 88);
    Ok(BinaryAcknowledge(7, mmsi1, sequence1, mmsi2, sequence2))
  }

  /** `decode_binary_acknowledge`: below 88 bits the raised error is caught and None returned. */
  function DecodeBinaryAcknowledge(bits: string): (r: Option<AisMessage>)
    ensures IsBits(bits) ==> (r.Some? <==> |bits| >= 88)
    ensures r.Some? ==> (r.value.BinaryAcknowledge? && r.value.messageType == 7
      && Reads(bits, 8, 38, r.value.mmsi1) && Reads(bits, 40, 48, r.value.sequenceNumber1)
      && Reads(bits, 48, 78, r.value.mmsi2) && Reads(bits, 80, 88, r.value.sequenceNumber2))
    ensures r.Some? && IsBits(bits) ==> r.value.mmsi1 == BinToNat(bits[8..38]) && r.value.mmsi2 == BinToNat(bits[48..78])
  {
    if |bits| < 88 then None
    else match BinaryAcknowledgeFields(bits)
      case Ok(m) => Some(m)
      case Err(_) => None
  }

  // ---- Type 8 ----

  /** `decode_binary_broadcast`. */
  function DecodeBinaryBroadcast(bits: string): (r: Result<AisMessage, PyError>)
    ensures IsBits(bits) ==> (r.Ok? <==> |bits| > 40)
    ensures r.Ok? ==> (r.value.BinaryBroadcast? && Reads(bits, 0, 6, r.value.messageType)
      && Reads(bits, 8, 38, r.value.mmsi) && Reads(bits, 40, 56, r.value.applicationId))
  {
    var mmsi :- Field(bits, 8, 38);
    var applicationId :- Field(bits, 40, 56);
    var messageType :- Field(bits, 0, 6);
    Ok(BinaryBroadcast(messageType, mmsi, applicationId))
  }

  // ---- Type 9 ----

  /** `decode_sar_aircraft_position`: the position layout of types 1-3 plus a 12-bit altitude. */
  function DecodeSarAircraftPosition(bits: string): (r: Result<AisMessage, PyError>)
    ensures IsBits(bits) ==> (r.Ok? <==> |bits| > 128)
    ensures r.Ok? ==> (r.value.SarAircraftPosition? && Reads(bits, 0, 6, r.value.messageType)
      && Reads(bits, 8, 38, r.value.mmsi) && Reads(bits, 38, 50, r.value.altitude)
      && Reads(bits, 50, 60, r.value.speedOverGround)
      && Reads(bits, 61, 89, r.value.longitude) && Reads(bits, 89, 116, r.value.latitude)
      && Reads(bits, 116, 128, r.value.courseOverGround) && Reads(bits, 128, 137, r.value.trueHeading))
    ensures r.Ok? ==> 0 <= r.value.longitude < Pow2(28) && 0 <= r.value.latitude < Pow2(27)
  {
    var mmsi :- Field(bits, 8, 38);
    var altitude :- Field(bits, 38, 50);
    var sog :- Field(bits, 50, 60);
    var longitude :- Field(bits, 61, 89);
    var latitude :- Field(bits, 89, 116);
    var cog :- Field(bits, 116, 128);
    var heading :- Field(bits, 128, 137);
    var messageType :- Field(bits, 0, 6);
    Ok(SarAircraftPosition(messageType, mmsi, altitude, longitude, latitude, sog, cog, heading))
  }

  // ---- Type 10 ----

  /** `decode_utc_date_inquiry`. */
  function DecodeUtcDateInquiry(bits: string): (r: Result<AisMessage, PyError>)
    ensures IsBits(bits) ==> (r.Ok? <==> |bits| > 8)
    ensures r.Ok? ==> (r.value.UtcDateInquiry? && Reads(bits, 0, 6, r.value.messageType)
      && Reads(bits, 8, 38, r.value.mmsi))
  {
    var mmsi :- Field(bits, 8, 38);
    var messageType :- Field(bits, 0, 6);
    Ok(UtcDateInquiry(messageType, mmsi))
  }

  // ---- Type 12 ----

  /** `decode_addressed_safety`: like type 6 up to the retransmit flag `bits[70]`. */
  function DecodeAddressedSafety(bits: string): (r: Result<AisMessage, PyError>)
    ensures IsBits(bits) ==> (r.Ok? <==> |bits| > 70)
    ensures r.Ok? ==> (r.value.AddressedSafety? && Reads(bits, 0, 6, r.value.messageType)
      && Reads(bits, 8, 38, r.value.mmsi) && Reads(bits, 38, 40, r.value.sequenceNumber)
      && Reads(bits, 40, 70, r.value.destinationMmsi) && FieldAt(bits, 70) == Ok(r.value.retransmitFlag))
  {
    var mmsi :- Field(bits, 8, 38);
    var sequence :- Field(bits, 38, 40);
    var destination :- Field(bits, 40, 70);
    var retransmit :- FieldAt(bits, 70);
    var messageType :- Field(bits, 0, 6);
    Ok(AddressedSafety(messageType, mmsi, sequence, destination, retransmit))
  }

  // ---- Type 13 ----

  /** `decode_acknowledge`: message type fixed at 13. */
  function DecodeAcknowledge(bits: string): (r: Result<AisMessage, PyError>)
    ensures IsBits(bits) ==> (r.Ok? <==> |bits| > 40)
    ensures r.Ok? ==> (r.value.Acknowledge? && r.value.messageType == 13
      && Reads(bits, 8, 38, r.value.mmsi) && Reads(bits, 40, 70, r.value.acknowledgedMmsi))
  {
    var mmsi :- Field(bits, 8, 38);
    var acknowledged :- Field(bits, 40, 70);
    Ok(Acknowledge(13, mmsi, acknowledged))
  }

  // ---- Type 14 ----

  /**
   * `decode_safety_broadcast`: the text runs from bit 40 to the end of the
   * stream and maps each group with `chr(v)`, so `.strip()` can remove
   * leading and trailing whitespace control characters.
   */
  function DecodeSafetyBroadcast(bits: string): (r: Result<AisMessage, PyError>)
    ensures IsBits(bits) ==> (r.Ok? <==> |bits| > 8)
    ensures r.Ok? ==> (r.value.SafetyBroadcast? && r.value.messageType == 14
      && Reads(bits, 8, 38, r.value.mmsi)
      && PlainText(bits, 40, |bits|) == Ok(r.value.safetyText)
      && |r.value.safetyText| <= Groups(40, |bits|))
  {
    var mmsi :- Field(bits, 8, 38);
    var text :- PlainText(bits, 40, |bits|);
    Ok(SafetyBroadcast(14, mmsi, text))
  }

  // ---- Type 15 ----

  /** `decode_interrogation`. */
  function DecodeInterrogation(bits: string): (r: Result<AisMessage, PyError>)
    ensures IsBits(bits) ==> (r.Ok? <==> |bits| > 40)
    ensures r.Ok? ==> (r.value.Interrogation? && Reads(bits, 0, 6, r.value.messageType)
      && Reads(bits, 8, 38, r.value.mmsi) && Reads(bits, 40, 70, r.value.interrogatedMmsi))
  {
    var mmsi :- Field(bits, 8, 38);
    var interrogated :- Field(bits, 40, 70);
    var messageType :- Field(bits, 0, 6);
    Ok(Interrogation(messageType, mmsi, interrogated))
  }

  // ---- Type 16 ----

  /** `decode_assignment`: message type fixed at 16. */
  function DecodeAssignment(bits: string): (r: Result<AisMessage, PyError>)
    ensures IsBits(bits) ==> (r.Ok? <==> |bits| > 40)
    ensures r.Ok? ==> (r.value.Assignment? && r.value.messageType == 16
      && Reads(bits, 8, 38, r.value.mmsi) && Reads(bits, 40, 70, r.value.assignedMmsi1))
  {
    var mmsi :- Field(bits, 8, 38);
    var assignedMmsi :- Field(bits, 40, 70);
    Ok(Assignment(16, mmsi, assignedMmsi))
  }

  // ---- Type 17 ----

  /** `decode_dgnss_binary`: 21-bit unsigned longitude and latitude in units of 1/600 degree. */
  function DecodeDgnssBinary(bits: string): (r: Result<AisMessage, PyError>)
    ensures IsBits(bits) ==> (r.Ok? <==> |bits| > 61)
    ensures r.Ok? ==> (r.value.DgnssBinary? && r.value.messageType == 17
      && Reads(bits, 8, 38, r.value.mmsi)
      && Reads(bits, 40, 61, r.value.longitude) && Reads(bits, 61, 82, r.value.latitude))
    ensures r.Ok? ==> 0 <= r.value.longitude < Pow2(21) && 0 <= r.value.latitude < Pow2(21)
  {
    var mmsi :- Field(bits, 8, 38);
    var longitude :- Field(bits, 40, 61);
    var latitude :- Field(bits, 61, 82);
    Ok(DgnssBinary(17, mmsi, longitude, latitude))
  }

  // ---- Type 18 ----

  /** `decode_gps_correction`: the type 1-3 position fields, message type fixed at 18. */
  function DecodeGpsCorrection(bits: string): (r: Result<AisMessage, PyError>)
    ensures IsBits(bits) ==> (r.Ok? <==> |bits| > 128)
    ensures r.Ok? ==> (r.value.GpsCorrection? && r.value.messageType == 18
      && Reads(bits, 8, 38, r.value.mmsi)
      && Reads(bits, 61, 89, r.value.longitude) && Reads(bits, 89, 116, r.value.latitude)
      && Reads(bits, 50, 60, r.value.speedOverGround) && Reads(bits, 116, 128, r.value.courseOverGround)
      && Reads(bits, 128, 137, r.value.trueHeading))
    ensures r.Ok? ==> 0 <= r.value.longitude < Pow2(28) && 0 <= r.value.latitude < Pow2(27)
  {
    var mmsi :- Field(bits, 8, 38);
    var longitude :- Field(bits, 61, 89);
    var latitude :- Field(bits, 89, 116);
    var sog :- Field(bits, 50, 60);
    var cog :- Field(bits, 116, 128);
    var heading :- Field(bits, 128, 137);
    Ok(GpsCorrection(18, mmsi, longitude, latitude, sog, cog, heading))
  }

  // ---- Type 19 ----

  /** `decode_cpa_warning`: the position fields without the heading, message type fixed at 19. */
  function DecodeCpaWarning(bits: string): (r: Result<AisMessage, PyError>)
    ensures IsBits(bits) ==> (r.Ok? <==> |bits| > 116)
    ensures r.Ok? ==> (r.value.CpaWarning? && r.value.messageType == 19
      && Reads(bits, 8, 38, r.value.mmsi)
      && Reads(bits, 61, 89, r.value.longitude) && Reads(bits, 89, 116, r.value.latitude)
      && Reads(bits, 50, 60, r.value.speedOverGround) && Reads(bits, 116, 128, r.value.courseOverGround))
    ensures r.Ok? ==> 0 <= r.value.longitude < Pow2(28) && 0 <= r.value.latitude < Pow2(27)
  {
    var mmsi :- Field(bits, 8, 38);
    var longitude :- Field(bits, 61, 89);
    var latitude :- Field(bits, 89, 116);
    var sog :- Field(bits, 50, 60);
    var cog :- Field(bits, 116, 128);
    Ok(CpaWarning(19, mmsi, longitude, latitude, sog, cog))
  }

  // ---- Type 20 ----

  /** `decode_utc_inquiry`: the date fields of type 4, message type fixed at 20. */
  function DecodeUtcInquiry(bits: string): (r: Result<AisMessage, PyError>)
    ensures IsBits(bits) ==> (r.Ok? <==> |bits| > 56)
    ensures r.Ok? ==> (r.value.UtcInquiry? && r.value.messageType == 20
      && Reads(bits, 8, 38, r.value.mmsi) && Reads(bits, 38, 52, r.value.utcYear)
      && Reads(bits, 52, 56, r.value.utcMonth) && Reads(bits, 56, 61, r.value.utcDay))
  {
    var mmsi :- Field(bits, 8, 38);
    var year :- Field(bits, 38, 52);
    var month :- Field(bits, 52, 56);
    var day :- Field(bits, 56, 61);
    Ok(UtcInquiry(20, mmsi, year, month, day))
  }

  // ---- Type 21 ----

  /** `decode_static_vessel`: a 20-character `chr(v + 64)` name from bits [40,160). */
  function DecodeStaticVessel(bits: string): (r: Result<AisMessage, PyError>)
    ensures IsBits(bits) ==> (r.Ok? <==> |bits| > 154)
    ensures r.Ok? ==> (r.value.StaticVessel? && r.value.messageType == 21
      && Reads(bits, 8, 38, r.value.mmsi) && ShiftedText(bits, 40, 160) == Ok(r.value.vesselName))
    ensures r.Ok? ==> |r.value.vesselName| == 20 && IsShiftedText(r.value.vesselName)
  {
    var mmsi :- Field(bits, 8, 38);
    var name :- ShiftedText(bits, 40, 160);
    Ok(StaticVessel(21, mmsi, name))
  }

  // ---- Type 23 ----

  /** `decode_single_slot`. */
  function DecodeSingleSlot(bits: string): (r: Result<AisMessage, PyError>)
    ensures IsBits(bits) ==> (r.Ok? <==> |bits| > 8)
    ensures r.Ok? ==> r.value.SingleSlot? && r.value.messageType == 23 && Reads(bits, 8, 38, r.value.mmsi)
  {
    var mmsi :- Field(bits, 8, 38);
    Ok(SingleSlot(23, mmsi))
  }

  // ---- Type 24 (the definition that is in effect) ----

  /**
   * `decode_static_data_report` as finally bound: text uses `chr(v)`, the
   * part number of bits [38,40) is always reported, and every part number
   * other than 0 selects the ship type, vendor id and call sign layout.
   */
  function DecodeStaticDataReport(bits: string): (r: Result<AisMessage, PyError>)
    ensures IsBits(bits) ==> (r.Ok? <==> |bits| > 154 || (|bits| > 126 && BinToNat(bits[38..40]) != 0))
    ensures r.Ok? ==> ((r.value.StaticDataPartA? || r.value.StaticDataPartB?) && r.value.messageType == 24
      && Reads(bits, 8, 38, r.value.mmsi)
      && Reads(bits, 38, 40, r.value.partNumber) && r.value.partNumber < 4)
    ensures r.Ok? ==> (r.value.StaticDataPartA? <==> r.value.partNumber == 0)
    ensures r.Ok? && r.value.StaticDataPartA? ==> PlainText(bits, 40, 160) == Ok(r.value.vesselName)
    ensures r.Ok? && r.value.StaticDataPartB? ==> (Reads(bits, 40, 48, r.value.shipType)
      && PlainText(bits, 48, 90) == Ok(r.value.vendorId) && PlainText(bits, 90, 132) == Ok(r.value.callsign))
  {
    var mmsi :- Field(bits, 8, 38);
    var part :- Field(bits, 38, 40);
    assert Pow2(2) == 4;
    if part == 0 then
      var name :- PlainText(bits, 40, 160);
      Ok(StaticDataPartA(24, mmsi, part, name))
    else
      var shipType :- Field(bits, 40, 48);
      var vendorId :- PlainText(bits, 48, 90);
      var callsign :- PlainText(bits, 90, 132);
      Ok(StaticDataPartB(24, mmsi, part, shipType, vendorId, callsign))
  }

  // ---- Types 25 and 26 ----

  /** The shared body of types 25 and 26: the payload is the rest of the stream from bit 56, unchanged. */
  function SlotBinaryFields(bits: string, messageType: nat): (r: Result<AisMessage, PyError>)
    ensures IsBits(bits) ==> (r.Ok? <==> |bits| > 40)
    ensures r.Ok? ==> (r.value.SlotBinary? && r.value.messageType == messageType
      && Reads(bits, 8, 38, r.value.mmsi) && Reads(bits, 40, 56, r.value.applicationIdentifier))
    ensures r.Ok? ==> |r.value.dataPayload| == if |bits| > 56 then |bits| - 56 else 0
    ensures r.Ok? && |bits| >= 56 ==> bits[..56] + r.value.dataPayload == bits
  {
    var mmsi :- Field(bits, 8, 38);
    var applicationId :- Field(bits, 40, 56);
    var payload := Slice(bits, 56, |bits|);
    assert |bits| >= 56 ==> bits[..56] + payload == bits;
    Ok(SlotBinary(messageType, mmsi, applicationId, payload))
  }

  /** `decode_single_slot_binary` (type 25). */
  function DecodeSingleSlotBinary(bits: string): (r: Result<AisMessage, PyError>)
    ensures IsBits(bits) ==> (r.Ok? <==> |bits| > 40)
    ensures r.Ok? ==> (r.value.SlotBinary? && r.value.messageType == 25
      && Reads(bits, 40, 56, r.value.applicationIdentifier)
      && (|bits| >= 56 ==> bits[..56] + r.value.dataPayload == bits))
  {
    SlotBinaryFields(bits, 25)
  }

  /** `decode_multiple_slot_binary` (type 26). */
  function DecodeMultipleSlotBinary(bits: string): (r: Result<AisMessage, PyError>)
    ensures IsBits(bits) ==> (r.Ok? <==> |bits| > 40)
    ensures r.Ok? ==> (r.value.SlotBinary? && r.value.messageType == 26
      && Reads(bits, 40, 56, r.value.applicationIdentifier)
      && (|bits| >= 56 ==> bits[..56] + r.value.dataPayload == bits))
  {
    SlotBinaryFields(bits, 26)
  }

  // ---- Type 27 ----

  /** `decode_long_range`: 18-bit-plus unsigned position in units of 1/600 degree. */
  function DecodeLongRange(bits: string): (r: Result<AisMessage, PyError>)
    ensures IsBits(bits) ==> (r.Ok? <==> |bits| > 94)
    ensures r.Ok? ==> (r.value.LongRange? && r.value.messageType == 27
      && Reads(bits, 8, 38, r.value.mmsi) && Reads(bits, 38, 39, r.value.positionAccuracy)
      && Reads(bits, 39, 40, r.value.raimFlag)
      && Reads(bits, 40, 59, r.value.longitude) && Reads(bits, 59, 78, r.value.latitude)
      && Reads(bits, 78, 85, r.value.speedOverGround) && Reads(bits, 85, 94, r.value.courseOverGround)
      && Reads(bits, 94, 95, r.value.gnssPositionStatus))
    ensures r.Ok? ==> 0 <= r.value.longitude < Pow2(19) && 0 <= r.value.latitude < Pow2(19)
  {
    var mmsi :- Field(bits, 8, 38);
    var accuracy :- Field(bits, 38, 39);
    var raim :- Field(bits, 39, 40);
    var longitude :- Field(bits, 40, 59);
    var latitude :- Field(bits, 59, 78);
    var sog :- Field(bits, 78, 85);
    var cog :- Field(bits, 85, 94);
    var status :- Field(bits, 94, 95);
    Ok(LongRange(27, mmsi, accuracy, raim, longitude, latitude, sog, cog, status))
  }
}
