/** The per-register payload decoders of monitor_aa.py and the dispatch table
    `decode_register`. A payload is the hex text that follows the register id
    in a CAN record. What Python returns as a dict, a formatted string or an
    "Incomplete ..." string is a case of `Decoded`; where Python would raise
    ValueError (a non-hex digit for `bytes.fromhex` or `int(_, 16)`, a byte
    of 0x80 or more for `decode('ascii')`) the decoder returns `Malformed`.
    Set temperatures stay in the raw half-degree units of the wire. */
module Registers {
  import opened Wrappers
  import opened Text

  datatype Decoded =
    | Incomplete(message: string)
    | Malformed
    | AirconError(errorCode: string, description: string, reserved: string)
    | SetUid(orig: string, unitUid: string, additionalData: string)
    | ZoneConfig(zones: byte, constantZones: byte, zone1: byte, zone2: byte, zone3: byte, filterStatus: byte)
    | ZoneConfigCb(header: byte, numZones: byte, numConstZones: byte, constZone1: byte, constZone2: byte,
                   constZone3: byte, filterStatus: byte)
    | UnitType(unitType: string, activationStatus: string)
    | ZoneState(zoneNumber: byte, zoneOpen: bool, zonePercent: byte, sensorType: string,
                setTempHalfDegrees: int, measuredTemperature: string)
    | ZoneConfigJz13(zoneNumber: byte, minDamper: byte, maxDamper: byte, motionStatus: byte,
                     motionConfig: byte, motionZoneError: byte, cbRssi: byte)
    | SystemStatus(systemState: string, mode: string, fan: string, setTempHalfDegrees: int,
                   myZoneId: string, freshAirStatus: string)
    | FirmwareStatus(firmwareMajor: int, firmwareMinor: int, controlBoxType: int, rfFirmwareMajor: int)
    | Raw(data: string)

  // ---------------------------------------------------------------------
  // Lookup tables
  // ---------------------------------------------------------------------

  const ErrorDescriptions: map<string, string> := map[
    "AA1" := "Communication error between Advantage Air componentry and A/C unit",
    "AA2" := "Multiple unit controllers detected",
    "AA3" := "Communication error",
    "AA4" := "System is not detecting any temperature sensors",
    "AA81" := "Wall sensor detected but no zone allocated or multiple zones allocated",
    "AA82" := "Wall sensor detected but no zone allocated or multiple zones allocated",
    "AA83" := "Wall sensor detected but no zone allocated or multiple zones allocated",
    "AA86" := "Wireless wall sensor detected with low battery reading",
    "AA89" := "Multiple sensors detected on the same zone"]

  const UnitTypeNames: map<int, string> := map[
    0x11 := "Daikin", 0x12 := "Panasonic", 0x13 := "Fujitsu", 0x19 := "Samsung DVM"]

  const ActivationNames: map<int, string> := map[
    0 := "No Code", 1 := "Expired", 2 := "Code Enabled"]

  const SensorTypeNames: map<int, string> := map[
    0 := "No Sensor", 1 := "RF", 2 := "Wired", 3 := "RF2CAN Booster", 4 := "RF_X"]

  const ModeNames: map<string, string> := map[
    "01" := "Cool", "02" := "Heat", "03" := "Vent", "04" := "Auto", "05" := "Dry", "06" := "MyAuto"]

  const FanNames: map<string, string> := map[
    "00" := "Off", "01" := "Low", "02" := "Medium", "03" := "High", "04" := "Auto", "05" := "AutoAA"]

  /** `dict.get(code, f"Unknown (0x{code:02X})")` on the unit type table. */
  function UnitTypeLabel(code: int): string
    requires -15 <= code <= 255
  {
    if code in UnitTypeNames then UnitTypeNames[code] else "Unknown (0x" + Hex2(code) + ")"
  }

  /** `f"Unknown ({code})"`, the fallback of the activation and sensor tables. */
  function UnknownDecimal(code: int): string
  {
    "Unknown (" + SignedDecimal(code) + ")"
  }

  /** `names.get(code, f"Unknown ({code})")`. */
  function DecimalLabel(names: map<int, string>, code: int): string
  {
    if code in names then names[code] else UnknownDecimal(code)
  }

  /** The activation status label. */
  function ActivationLabel(code: int): string
  {
    DecimalLabel(ActivationNames, code)
  }

  /** The sensor type label. */
  function SensorTypeLabel(code: int): string
  {
    DecimalLabel(SensorTypeNames, code)
  }

  /** `dict.get(key, 'Unknown')` on a string-keyed table. */
  function NameOr(names: map<string, string>, key: string): string
  {
    if key in names then names[key] else "Unknown"
  }

  /** `bytes.fromhex(s).decode('ascii')` after fromhex succeeded. */
  predicate IsAscii(bytes: seq<byte>)
  {
    forall i :: 0 <= i < |bytes| ==> bytes[i] < 0x80
  }

  function AsciiString(bytes: seq<byte>): (s: string)
    requires IsAscii(bytes)
    ensures |s| == |bytes| && forall i :: 0 <= i < |s| ==> s[i] as int == bytes[i]
  {
    seq(|bytes|, i requires 0 <= i < |bytes| => bytes[i] as char)
  }

  // ---------------------------------------------------------------------
  // The decoders
  // ---------------------------------------------------------------------

  /** decode_aircon_error: five ASCII characters in hex, then two reserved bytes. */
  function DecodeAirconError(data: string): (r: Decoded)
    ensures r.Incomplete? <==> |data| < 14
    ensures r.Incomplete? ==> r.message == "Incomplete AirCon Error data"
    ensures r.Malformed? <==> |data| >= 14 && (ParseHex(data[..10]).None? || !IsAscii(ParseHex(data[..10]).value))
    ensures r.AirconError? ==> |data| >= 14 && ParseHex(data[..10]).Some?
    ensures r.AirconError? ==>
      && |r.errorCode| == 5
      && (forall i :: 0 <= i < 5 ==> r.errorCode[i] as int == ParseHex(data[..10]).value[i])
      && r.reserved == data[10..14]
      && r.description == (if r.errorCode in ErrorDescriptions then ErrorDescriptions[r.errorCode]
                           else "Unknown Error Code: " + r.errorCode)
    ensures r.Incomplete? || r.Malformed? || r.AirconError?
  {
    if |data| < 14 then Incomplete("Incomplete AirCon Error data")
    else
      match ParseHex(data[..10])
      case None => Malformed
      case Some(bytes) =>
        if !IsAscii(bytes) then Malformed
        else
          var code := AsciiString(bytes);
          var description := if code in ErrorDescriptions then ErrorDescriptions[code]
                             else "Unknown Error Code: " + code;
          AirconError(code, description, data[10..14])
  }

  /** decode_set_uid: the first three bytes are the unit UID, the rest is kept. */
  function DecodeSetUid(data: string): (r: Decoded)
    ensures r.Incomplete? <==> |data| < 12
    ensures r.Incomplete? ==> r.message == "Incomplete Set UID data"
    ensures !r.Incomplete? ==> r.SetUid? && |r.unitUid| == 6 && r.unitUid + r.additionalData == r.orig == data
  {
    if |data| < 12 then Incomplete("Incomplete Set UID data")
    else SetUid(data, data[0..6], data[6..])
  }

  /** decode_zone_config: bytes 1 to 6 of the first seven (byte 0 is skipped). */
  function DecodeZoneConfig(data: string): (r: Decoded)
    ensures r.Incomplete? <==> |data| < 14
    ensures r.Incomplete? ==> r.message == "Incomplete Zone Config data"
    ensures r.Malformed? <==> |data| >= 14 && ParseHex(data[..14]).None?
    ensures r.ZoneConfig? ==>
      && |data| >= 14 && ParseHex(data[..14]).Some?
      && [r.zones, r.constantZones, r.zone1, r.zone2, r.zone3, r.filterStatus] == ParseHex(data[..14]).value[1..]
    ensures r.Incomplete? || r.Malformed? || r.ZoneConfig?
  {
    if |data| >= 14 then
      match ParseHex(data[..14])
      case None => Malformed
      case Some(b) => ZoneConfig(b[1], b[2], b[3], b[4], b[5], b[6])
    else Incomplete("Incomplete Zone Config data")
  }

  /** decode_zone_config_cb (not dispatched): all seven bytes, byte 0 as header. */
  function DecodeZoneConfigCb(data: string): (r: Decoded)
    ensures r.Incomplete? <==> |data| < 14
    ensures r.Incomplete? ==> r.message == "Incomplete Zone Config CB data"
    ensures r.Malformed? <==> |data| >= 14 && ParseHex(data[..14]).None?
    ensures r.ZoneConfigCb? ==>
      && |data| >= 14 && ParseHex(data[..14]).Some?
      && [r.header, r.numZones, r.numConstZones, r.constZone1, r.constZone2, r.constZone3, r.filterStatus]
        == ParseHex(data[..14]).value
    ensures r.Incomplete? || r.Malformed? || r.ZoneConfigCb?
  {
    if |data| < 14 then Incomplete("Incomplete Zone Config CB data")
    else
      match ParseHex(data[..14])
      case None => Malformed
      case Some(b) => ZoneConfigCb(b[0], b[1], b[2], b[3], b[4], b[5], b[6])
  }

  /** decode_unit_type: vendor code and activation status, each read by
      `int(_, 16)` and looked up in its table. */
  function DecodeUnitType(data: string): (r: Decoded)
    ensures r.Incomplete? <==> |data| < 6
    ensures r.Incomplete? ==> r.message == "Incomplete Unit Type / Activation Status data"
    ensures r.Malformed? <==> |data| >= 6 && (ParseInt16(data[0..2]).None? || ParseInt16(data[2..4]).None?)
    ensures r.UnitType? ==>
      && |data| >= 6 && ParseInt16(data[0..2]).Some? && ParseInt16(data[2..4]).Some?
      && r.unitType == UnitTypeLabel(ParseInt16(data[0..2]).value)
      && r.activationStatus == ActivationLabel(ParseInt16(data[2..4]).value)
    ensures r.Incomplete? || r.Malformed? || r.UnitType?
  {
    if |data| < 6 then Incomplete("Incomplete Unit Type / Activation Status data")
    else
      match (ParseInt16(data[0..2]), ParseInt16(data[2..4]))
      case (Some(unitType), Some(activationStatus)) =>
        UnitType(UnitTypeLabel(unitType), ActivationLabel(activationStatus))
      case _ => Malformed
  }

  /** decode_zone_state: byte 1 packs the open flag (bit 7) and the percentage
      (bits 0-6); byte 6 is ignored. */
  function DecodeZoneState(data: string): (r: Decoded)
    ensures r.Incomplete? <==> |data| < 14
    ensures r.Incomplete? ==> r.message == "Incomplete Zone State data"
    ensures r.Malformed? <==> |data| >= 14 && ParseHex(data[..14]).None?
    ensures r.ZoneState? ==> |data| >= 14 && ParseHex(data[..14]).Some?
    ensures r.ZoneState? ==>
      var b := ParseHex(data[..14]).value;
      && r.zoneNumber == b[0]
      && (r.zoneOpen <==> b[1] >= 128)
      && r.zonePercent == b[1] % 128
      && r.zonePercent <= 127
      && r.zonePercent + (if r.zoneOpen then 128 else 0) == b[1]
      && r.sensorType == SensorTypeLabel(b[2])
      && r.setTempHalfDegrees == b[3]
      && r.measuredTemperature == Decimal(b[4]) + "." + Decimal(b[5]) + "°C"
    ensures r.Incomplete? || r.Malformed? || r.ZoneState?
  {
    if |data| < 14 then Incomplete("Incomplete Zone State data")
    else
      match ParseHex(data[..14])
      case None => Malformed
      case Some(b) =>
        // On a byte, `& 0x80` keeps the top bit and `& 0x7F` the seven below it.
        ZoneState(b[0], b[1] / 128 * 128 != 0, b[1] % 128, SensorTypeLabel(b[2]), b[3],
                  Decimal(b[4]) + "." + Decimal(b[5]) + "°C")
  }

  /** decode_zone_config_jz13: seven single-byte fields. */
  function DecodeZoneConfigJz13(data: string): (r: Decoded)
    ensures r.Incomplete? <==> |data| < 14
    ensures r.Incomplete? ==> r.message == "Incomplete Zone Config JZ13 data"
    ensures r.Malformed? <==> |data| >= 14 && ParseHex(data[..14]).None?
    ensures r.ZoneConfigJz13? ==>
      && |data| >= 14 && ParseHex(data[..14]).Some?
      && [r.zoneNumber, r.minDamper, r.maxDamper, r.motionStatus, r.motionConfig, r.motionZoneError, r.cbRssi]
        == ParseHex(data[..14]).value
    ensures r.Incomplete? || r.Malformed? || r.ZoneConfigJz13?
  {
    if |data| < 14 then Incomplete("Incomplete Zone Config JZ13 data")
    else
      match ParseHex(data[..14])
      case None => Malformed
      case Some(b) => ZoneConfigJz13(b[0], b[1], b[2], b[3], b[4], b[5], b[6])
  }

  /** decode_system_status: compares and looks up the hex text itself; only
      the set temperature is read as a number, by `int(_, 16)`. */
  function DecodeSystemStatus(data: string): (r: Decoded)
    ensures r.Incomplete? <==> |data| < 14
    ensures r.Incomplete? ==> r.message == "Incomplete System Status data"
    ensures r.Malformed? <==> |data| >= 14 && ParseInt16(data[6..8]).None?
    ensures r.SystemStatus? ==> |data| >= 14 && ParseInt16(data[6..8]).Some?
    ensures r.SystemStatus? ==>
      && (r.systemState == "On" <==> data[0..2] == "01")
      && (r.systemState == "On" || r.systemState == "Off")
      && r.mode == (if data[2..4] in ModeNames then ModeNames[data[2..4]] else "Unknown")
      && r.fan == (if data[4..6] in FanNames then FanNames[data[4..6]] else "Unknown")
      && ParseInt16(data[6..8]) == Some(r.setTempHalfDegrees)
      && r.myZoneId == data[8..10]
      && (r.freshAirStatus == "On" <==> data[10..12] == "01")
      && (r.freshAirStatus == "On" || r.freshAirStatus == "Off")
    ensures r.Incomplete? || r.Malformed? || r.SystemStatus?
  {
    if |data| >= 14 then
      var systemState := if data[0..2] == "01" then "On" else "Off";
      var mode := NameOr(ModeNames, data[2..4]);
      var fan := NameOr(FanNames, data[4..6]);
      match ParseInt16(data[6..8])
      case None => Malformed
      case Some(setTemp) =>
        var freshAirStatus := if data[10..12] == "01" then "On" else "Off";
        SystemStatus(systemState, mode, fan, setTemp, data[8..10], freshAirStatus)
    else Incomplete("Incomplete System Status data")
  }

  /** decode_firmware_status: four numbers read by `int(_, 16)`; bytes 4-6
      (locking) are not decoded. */
  function DecodeFirmwareStatus(data: string): (r: Decoded)
    ensures r.Incomplete? <==> |data| < 14
    ensures r.Incomplete? ==> r.message == "Incomplete Firmware Status data"
    ensures r.Malformed? <==>
      && |data| >= 14
      && (|| ParseInt16(data[0..2]).None? || ParseInt16(data[2..4]).None?
          || ParseInt16(data[4..6]).None? || ParseInt16(data[6..8]).None?)
    ensures r.FirmwareStatus? ==>
      && |data| >= 14
      && Some(r.firmwareMajor) == ParseInt16(data[0..2])
      && Some(r.firmwareMinor) == ParseInt16(data[2..4])
      && Some(r.controlBoxType) == ParseInt16(data[4..6])
      && Some(r.rfFirmwareMajor) == ParseInt16(data[6..8])
    ensures r.Incomplete? || r.Malformed? || r.FirmwareStatus?
  {
    if |data| < 14 then Incomplete("Incomplete Firmware Status data")
    else
      match (ParseInt16(data[0..2]), ParseInt16(data[2..4]), ParseInt16(data[4..6]), ParseInt16(data[6..8]))
      case (Some(fwMajor), Some(fwMinor), Some(cbType), Some(rfFwMajor)) =>
        FirmwareStatus(fwMajor, fwMinor, cbType, rfFwMajor)
      case _ => Malformed
  }

  // ---------------------------------------------------------------------
  // The dispatch table
  // ---------------------------------------------------------------------

  const Descriptions: map<string, string> := map[
    "01" := "Zone CFG    ", "02" := "Unit Type   ", "03" := "Zone State  ", "04" := "Zone Cfg    ",
    "05" := "Sys Status  ", "06" := "FW Vers     ", "07" := "Tablet?     ", "08" := "AC Error    ",
    "09" := "Activation  ", "12" := "Sensor Pair ", "13" := "Info Byte   ", "0a" := "UID         "]

  /** The register ids decode_register hands to a decoder. */
  const DecodedIds: set<string> := {"01", "02", "03", "04", "05", "06", "08", "0a"}

  /** decode_register: the description from the table (default 'Unknown     ')
      and the decoded payload; ids without a decoder pass the payload through. */
  function DecodeRegister(registerId: string, data: string): (r: (string, Decoded))
    ensures r.0 == (if registerId in Descriptions then Descriptions[registerId] else "Unknown     ")
    ensures r.1.Raw? <==> registerId !in DecodedIds
    ensures r.1.Raw? ==> r.1.data == data
    ensures registerId == "01" ==> r.1 == DecodeZoneConfig(data)
    ensures registerId == "02" ==> r.1 == DecodeUnitType(data)
    ensures registerId == "03" ==> r.1 == DecodeZoneState(data)
    ensures registerId == "04" ==> r.1 == DecodeZoneConfigJz13(data)
    ensures registerId == "05" ==> r.1 == DecodeSystemStatus(data)
    ensures registerId == "06" ==> r.1 == DecodeFirmwareStatus(data)
    ensures registerId == "08" ==> r.1 == DecodeAirconError(data)
    ensures registerId == "0a" ==> r.1 == DecodeSetUid(data)
  {
    var description := if registerId in Descriptions then Descriptions[registerId] else "Unknown     ";
    if registerId == "01" then (description, DecodeZoneConfig(data))
    else if registerId == "02" then (description, DecodeUnitType(data))
    else if registerId == "03" then (description, DecodeZoneState(data))
    else if registerId == "04" then (description, DecodeZoneConfigJz13(data))
    else if registerId == "05" then (description, DecodeSystemStatus(data))
    else if registerId == "06" then (description, DecodeFirmwareStatus(data))
    else if registerId == "08" then (description, DecodeAirconError(data))
    else if registerId == "0a" then (description, DecodeSetUid(data))
    else (description, Raw(data))
  }

  // ---------------------------------------------------------------------
  // Properties of the decoders
  // ---------------------------------------------------------------------

  /** A table whose names are pairwise distinct and none of which begins
      like a fallback label. */
  predicate DistinctNames(names: map<int, string>)
  {
    && (forall a, b | a in names && b in names && a != b :: names[a] != names[b])
    && (forall a | a in names :: names[a] != [] && names[a][0] != 'U')
  }

  /** The three number-keyed tables of the decoders are of that kind. */
  lemma UnitTypeNamesDistinct()
    ensures DistinctNames(UnitTypeNames)
  {
    assert UnitTypeNames.Keys == {0x11, 0x12, 0x13, 0x19};
  }

  lemma ActivationNamesDistinct()
    ensures DistinctNames(ActivationNames)
  {
    assert ActivationNames.Keys == {0, 1, 2};
  }

  lemma SensorTypeNamesDistinct()
    ensures DistinctNames(SensorTypeNames)
  {
    assert SensorTypeNames.Keys == {0, 1, 2, 3, 4};
  }

  /** The two characters inside "Unknown (0x..)" read back, by `int(_, 16)`,
      as the code. */
  lemma UnitTypeLabelShowsCode(code: int)
    requires -15 <= code <= 255
    ensures code !in UnitTypeNames ==>
      var shown := UnitTypeLabel(code);
      && |shown| == 14
      && StartsWith(shown, "Unknown (0x")
      && shown[13] == ')'
      && ParseInt16(shown[11..13]) == Some(code)
  {
    if code !in UnitTypeNames {
      var shown := UnitTypeLabel(code);
      assert shown[11..13] == Hex2(code);
      Hex2RoundTrip(code);
    }
  }

  /** Distinct vendor codes get distinct labels. */
  lemma UnitTypeLabelInjective(a: int, b: int)
    requires -15 <= a <= 255 && -15 <= b <= 255
    requires UnitTypeLabel(a) == UnitTypeLabel(b)
    ensures a == b
  {
    UnitTypeNamesDistinct();
    UnitTypeLabelShowsCode(a);
    UnitTypeLabelShowsCode(b);
  }

  /** The number inside "Unknown (n)" reads back as the code. */
  lemma UnknownDecimalShowsCode(code: int)
    ensures var shown := UnknownDecimal(code);
      && StartsWith(shown, "Unknown (")
      && shown[|shown| - 1] == ')'
      && ReadSignedDecimal(shown[9..|shown| - 1]) == Some(code)
  {
    var shown := UnknownDecimal(code);
    assert shown[9..|shown| - 1] == SignedDecimal(code);
    SignedDecimalRoundTrip(code);
  }

  /** Over a table of distinct names, distinct codes get distinct labels:
      a known name never looks like a fallback, and a fallback shows its code. */
  lemma DecimalLabelInjective(names: map<int, string>, a: int, b: int)
    requires DistinctNames(names)
    requires DecimalLabel(names, a) == DecimalLabel(names, b)
    ensures a == b
  {
    UnknownDecimalShowsCode(a);
    UnknownDecimalShowsCode(b);
  }

  /** So activation and sensor labels determine their codes. */
  lemma ActivationAndSensorLabelsInjective(a: int, b: int)
    ensures ActivationLabel(a) == ActivationLabel(b) ==> a == b
    ensures SensorTypeLabel(a) == SensorTypeLabel(b) ==> a == b
  {
    ActivationNamesDistinct();
    SensorTypeNamesDistinct();
    if ActivationLabel(a) == ActivationLabel(b) {
      DecimalLabelInjective(ActivationNames, a, b);
    }
    if SensorTypeLabel(a) == SensorTypeLabel(b) {
      DecimalLabelInjective(SensorTypeNames, a, b);
    }
  }

  /** The error-code lookup never succeeds: the decoded code always has five
      characters, while every key of the table has three or four. */
  lemma AirconErrorNeverDescribed(data: string)
    ensures DecodeAirconError(data).AirconError? ==>
      DecodeAirconError(data).description == "Unknown Error Code: " + DecodeAirconError(data).errorCode
  {
    var r := DecodeAirconError(data);
    if r.AirconError? {
      assert forall key | key in ErrorDescriptions :: |key| <= 4;
    }
  }

  /** Ten hex digits (a UID and two bytes) are still too short for set_uid. */
  lemma SetUidNeedsTwelveDigits()
    ensures DecodeSetUid("aabbcc0000") == Incomplete("Incomplete Set UID data")
    ensures DecodeSetUid("aabbcc000000") == SetUid("aabbcc000000", "aabbcc", "000000")
  {
  }

  /** `int(_, 16)` takes a sign, so a signed pair is read rather than
      refused: "-5" is the unit type -5, printed as "Unknown (0x-5)". */
  lemma SignedPairsAreRead()
    ensures DecodeUnitType("-50100") == UnitType("Unknown (0x-5)", "Expired")
    ensures DecodeUnitType("+50100") == UnitType("Unknown (0x05)", "Expired")
  {
    assert "-50100"[0..2] == "-5" && "-50100"[2..4] == "01";
    assert "+50100"[0..2] == "+5" && "+50100"[2..4] == "01";
  }

  /** A full system status record. */
  lemma SystemStatusExample()
    ensures DecodeSystemStatus("01010205010100") == SystemStatus("On", "Cool", "Medium", 5, "01", "On")
  {
    var data := "01010205010100";
    assert data[0..2] == "01" && data[2..4] == "01" && data[4..6] == "02";
    assert data[6..8] == "05" && data[8..10] == "01" && data[10..12] == "01";
  }

  /** Register ids are compared exactly: upper-case "0A" is not the UID register. */
  lemma RegisterIdsAreCaseSensitive(data: string)
    ensures DecodeRegister("0A", data) == ("Unknown     ", Raw(data))
    ensures DecodeRegister("0a", data) == ("UID         ", DecodeSetUid(data))
  {
  }

  /** Ids that are described but have no decoder keep their payload unchanged. */
  lemma DescribedButRaw(registerId: string, data: string)
    requires registerId in {"07", "09", "12", "13"}
    ensures DecodeRegister(registerId, data).1 == Raw(data)
    ensures DecodeRegister(registerId, data).0 != "Unknown     "
  {
  }
}
