// The hand-held-programmer application protocol: a received frame
// <LEN><CMD><DATA...><CHKSUM> is checked and dispatched on its command byte,
// the settings it reads or writes live in the EEPROM item store, and every
// frame gets a response <LEN><DATA...><CHKSUM> built in the transmit buffer.

module HhpApp {
  import opened Bytes
  import opened Wrappers
  import opened EepromBsp
  import opened EepromApp
  import opened Features
  import AppCommon
  import HhpInterface
  import HeadArray

  /**
   * The transmit buffer. The firmware declares it with HHP_RX_TX_BUFF_LEN = 8
   * bytes, but the calibration-range response is 10 bytes long; the model
   * gives the buffer the 10 bytes that response needs.
   */
  const TxBuffLen: nat := 10

  // HaHhpIfCmd_t
  const CmdPadAssignmentGet: byte := 0x30
  const CmdPadAssignmentSet: byte := 0x31
  const CmdCalRangeGet: byte := 0x32
  const CmdCalRangeSet: byte := 0x33
  const CmdCalibrationStart: byte := 0x34
  const CmdCalibrationStop: byte := 0x35
  const CmdPadDataGet: byte := 0x36
  const CmdVersionGet: byte := 0x37
  const CmdEnabledFeaturesGet: byte := 0x38
  const CmdEnabledFeaturesSet: byte := 0x39
  const CmdModeOfOperationSet: byte := 0x3A
  const CmdHeartbeat: byte := 0x3B
  const CmdNeutralDacGet: byte := 0x3C
  const CmdNeutralDacSet: byte := 0x3D
  const CmdSaveParameters: byte := 0x3E
  const CmdResetParameters: byte := 0x3F
  const CmdDriveOffsetGet: byte := 0x40
  const CmdDriveOffsetSet: byte := 0x41

  // HaHhpIfResp_t
  const Ack: byte := 0x06
  const Nack: byte := 0x15

  // Wire codes of pads, outputs and pad types.
  const PadSelLeft: byte := 'L' as int
  const PadSelRight: byte := 'R' as int
  const PadSelCtr: byte := 'C' as int
  const OutputSelLeft: byte := 'L' as int
  const OutputSelRight: byte := 'R' as int
  const OutputSelFwd: byte := 'F' as int
  const OutputSelBackwards: byte := 'B' as int
  const OutputSelOff: byte := 'O' as int
  const PadTypeDigital: byte := 'D' as int
  const PadTypeProportional: byte := 'P' as int

  // version.h
  const VersionMajor: byte := 1
  const VersionMinor: byte := 8
  const VersionBuild: byte := 2

  /** The largest accepted minimum drive speed. */
  const MaxDriveOffset: byte := 60

  /**
   * HeadArrayOutputFunction_t and HeadArrayInputType_t as stored in the
   * EEPROM. Their declarations are not part of this model; the output
   * functions are numbered in the order LEFT, RIGHT, FWD, REV that the
   * firmware's DAC table relies on, followed by NONE, and the input types
   * DIGITAL, PROPORTIONAL, EOL.
   */
  const OutFuncLeft: byte := 0
  const OutFuncRight: byte := 1
  const OutFuncFwd: byte := 2
  const OutFuncRev: byte := 3
  const OutFuncNone: byte := 4
  const InputDigital: byte := 0
  const InputProportional: byte := 1
  const InputEol: byte := 2

  /** TranslateInputToOutputMapValFromEnum. */
  function OutputMapFromEnum(e: byte): byte
  {
    if e == OutFuncLeft then OutputSelLeft
    else if e == OutFuncRight then OutputSelRight
    else if e == OutFuncFwd then OutputSelFwd
    else if e == OutFuncRev then OutputSelBackwards
    else OutputSelOff
  }

  /** TranslateInputToOutputMapValToEnum. */
  function OutputMapToEnum(c: byte): byte
  {
    if c == OutputSelLeft then OutFuncLeft
    else if c == OutputSelRight then OutFuncRight
    else if c == OutputSelFwd then OutFuncFwd
    else if c == OutputSelBackwards then OutFuncRev
    else OutFuncNone
  }

  /** TranslateInputTypeValToEnum. */
  function InputTypeToEnum(c: byte): byte
  {
    if c == PadTypeDigital then InputDigital
    else if c == PadTypeProportional then InputProportional
    else InputEol
  }

  /**
   * The output-map codes round-trip through the enumeration, any other code
   * reads as NONE and is reported back as 'O', and every enumeration value
   * round-trips through its code.
   */
  lemma OutputMapRoundTrip(c: byte, e: byte)
    ensures c in {OutputSelLeft, OutputSelRight, OutputSelFwd, OutputSelBackwards, OutputSelOff} ==>
      OutputMapFromEnum(OutputMapToEnum(c)) == c
    ensures c !in {OutputSelLeft, OutputSelRight, OutputSelFwd, OutputSelBackwards} ==>
      OutputMapToEnum(c) == OutFuncNone && OutputMapFromEnum(OutputMapToEnum(c)) == OutputSelOff
    ensures e <= OutFuncNone ==> OutputMapToEnum(OutputMapFromEnum(e)) == e
  {
  }

  /** The pad-type codes: 'D' and 'P' are the two input types; anything else is EOL. */
  lemma InputTypeCodes(c: byte)
    ensures InputTypeToEnum(c) == InputDigital <==> c == PadTypeDigital
    ensures InputTypeToEnum(c) == InputProportional <==> c == PadTypeProportional
  {
  }

  /** The checksum of the first `n` bytes of a packet. */
  function Checksum(p: seq<byte>, n: nat): byte
    requires n <= |p|
  {
    Sum(p[..n]) % 0x100
  }

  /** CalcChecksum: the 8-bit sum of the first `len` bytes. */
  method CalcChecksum(packet: array<byte>, len: byte) returns (checksum: byte)
    requires len <= packet.Length
    ensures checksum == Checksum(packet[..], len)
  {
    checksum := 0;
    var i := 0;
    while i < len
      invariant 0 <= i <= len
      invariant checksum == Sum(packet[..i]) % 0x100
    {
      assert packet[..i + 1] == packet[..i] + [packet[i]];
      SumSnoc(packet[..i], packet[i]);
      checksum := Wrap8(checksum + packet[i]);
      i := i + 1;
    }
    assert packet[..][..len] == packet[..len];
  }

  /**
   * What the handlers read outside the store and the application flags: the
   * pad readings of the head array (its digital statuses, raw proportional
   * values and axis outputs, whose producers are not part of this model),
   * its neutral-test failure flag, GetSwitchStatus, and the answers of
   * appCommonFeatureIsEnabled per feature.
   */
  datatype Env = Env(
    neutralTestFail: bool,
    switchStatus: byte,
    digital: seq<bool>,
    raw: seq<u16>,
    outputLeftRight: u16,
    outputFwdRev: u16,
    enabled: seq<bool>)
  {
    predicate WellFormed()
    {
      |digital| == 3 && |raw| == 3 && |enabled| == FeatureEol
    }
  }

  /** appCommonFeatureIsEnabled for a feature number that may be out of range. */
  function FeatureEnabled(env: Env, f: int): bool
    requires env.WellFormed()
  {
    0 <= f < FeatureEol && env.enabled[f]
  }

  /** A handler's response (without its checksum byte) and the new settings, EEPROM and calibration flag. */
  datatype Handled = Handled(resp: seq<byte>, store: StoreState, mem: seq<byte>, calibration: bool)

  /** A response whose length byte counts itself, its data and the checksum, and fits the buffer. */
  predicate WellFramed(resp: seq<byte>)
  {
    2 <= |resp| < TxBuffLen && resp[0] == |resp| + 1
  }

  /** BuildAckPacket. */
  function AckResp(): (r: seq<byte>)
    ensures WellFramed(r)
  {
    [3, Ack]
  }

  /** BuildNackPacket. */
  function NackResp(): (r: seq<byte>)
    ensures WellFramed(r)
  {
    [3, Nack]
  }

  function BoolByte(b: bool): byte
  {
    if b then 1 else 0
  }

  /** The input-type item of the pad a selector names; any selector other than 'L' or 'R' names the centre pad. */
  function InputItemOf(sel: byte): ItemId
  {
    if sel == PadSelLeft then ItemLeftPadInputType
    else if sel == PadSelRight then ItemRightPadInputType else ItemCtrPadInputType
  }

  /** HandlePadAssignmentGet. */
  function PadAssignmentGetResp(rx: seq<byte>, img: seq<byte>): (r: seq<byte>)
    requires |rx| == HhpInterface.BuffLen && |img| == ImageSize
    ensures WellFramed(r)
  {
    var sel := rx[2];
    if sel != PadSelLeft && sel != PadSelRight && sel != PadSelCtr then NackResp()
    else
      var inputItem := InputItemOf(sel);
      var mapItem := if sel == PadSelLeft then ItemLeftPadOutputMap
        else if sel == PadSelRight then ItemRightPadOutputMap else ItemCtrPadOutputMap;
      [4, OutputMapFromEnum(ByteValue(img, mapItem)),
       if ByteValue(img, inputItem) == InputDigital then PadTypeDigital else PadTypeProportional]
  }

  /** HandlePadAssignmentSet: any selector other than 'L' or 'R' addresses the centre pad. */
  function PadAssignmentSet(rx: seq<byte>, st: StoreState): (r: StoreState)
    requires |rx| == HhpInterface.BuffLen && st.WellFormed()
    ensures r.WellFormed()
  {
    var sel := rx[2];
    var mapItem := if sel == PadSelLeft then ItemLeftPadOutputMap
      else if sel == PadSelRight then ItemRightPadOutputMap else ItemCtrPadOutputMap;
    var inputItem := InputItemOf(sel);
    SetByte(SetByte(st, mapItem, OutputMapToEnum(rx[3])), inputItem, InputTypeToEnum(rx[4]))
  }

  /**
   * The `k`-th of a pad's four calibration items (min ADC, max ADC, min
   * threshold, max threshold); any selector other than 'L' or 'R' names the
   * centre pad.
   */
  function CalItem(sel: byte, k: nat): (i: ItemId)
    requires k < 4
    ensures TypeOf(i) == Uint16
  {
    (if sel == PadSelLeft then ItemLeftPadMinAdc
     else if sel == PadSelRight then ItemRightPadMinAdc
     else ItemCtrPadMinAdc) + k
  }

  /** HandlePadCalibrationDataGet: four 16-bit values, most significant byte first. */
  function CalRangeGetResp(rx: seq<byte>, img: seq<byte>): (r: seq<byte>)
    requires |rx| == HhpInterface.BuffLen && |img| == ImageSize
    ensures WellFramed(r)
  {
    var minAdc := WordValue(img, CalItem(rx[2], 0));
    var maxAdc := WordValue(img, CalItem(rx[2], 1));
    var minThresh := WordValue(img, CalItem(rx[2], 2));
    var maxThresh := WordValue(img, CalItem(rx[2], 3));
    [10, Hi(minAdc), Lo(minAdc), Hi(maxAdc), Lo(maxAdc),
     Hi(minThresh), Lo(minThresh), Hi(maxThresh), Lo(maxThresh)]
  }

  /** HandlePadCalibrationDataSet: the two thresholds, each sent most significant byte first. */
  function CalRangeSet(rx: seq<byte>, st: StoreState): (r: StoreState)
    requires |rx| == HhpInterface.BuffLen && st.WellFormed()
    ensures r.WellFormed()
  {
    SetWord(SetWord(st, CalItem(rx[2], 2), Join(rx[3], rx[4])), CalItem(rx[2], 3), Join(rx[5], rx[6]))
  }

  /**
   * The percentage of the neutral-DAC range a demand represents, in the
   * target's 16-bit unsigned arithmetic. The firmware divides by the stored
   * range even when it is 0; the model reports 0 then.
   */
  function DemandPercent(excess: u16, range: u16): (r: u16)
    ensures range == 0 ==> r == 0
    ensures range != 0 ==> r == DemandPercentAsWritten(excess, range)
  {
    if range == 0 then 0 else Wrap16(excess * 100) / range
  }

  /** The demand percentage as the firmware computes it, defined only for a non-zero range. */
  function DemandPercentAsWritten(excess: u16, range: u16): (r: u16)
    requires range != 0
    ensures r * range <= Wrap16(excess * 100) < (r + 1) * range
  {
    Wrap16(excess * 100) / range
  }

  /** The head-array sensor a pad selector names (HeadArraySensor_t). */
  function SensorOf(sel: byte): nat
  {
    if sel == PadSelLeft then HeadArray.SensorLeft
    else if sel == PadSelRight then HeadArray.SensorRight
    else HeadArray.SensorCenter
  }

  /**
   * The demand a proportional pad reports, as a percentage of the neutral-DAC
   * range: the left pad measures below the neutral setting, the right and
   * centre pads above it; a demand on the other side reports 0.
   */
  function PadPercent(sel: byte, setting: u16, range: u16, env: Env): u16
  {
    if sel == PadSelLeft then
      (if env.outputLeftRight > setting then 0 else DemandPercent(setting - env.outputLeftRight, range))
    else if sel == PadSelRight then
      (if env.outputLeftRight < setting then 0 else DemandPercent(env.outputLeftRight - setting, range))
    else
      (if env.outputFwdRev < setting then 0 else DemandPercent(env.outputFwdRev - setting, range))
  }

  /** The pad-data response for a valid selector, given the pad's input type and the stored neutral-DAC values. */
  function PadDataResp(sel: byte, digital: bool, setting: u16, range: u16, env: Env): (r: seq<byte>)
    requires env.WellFormed()
    ensures WellFramed(r) && |r| == 5
  {
    var s := SensorOf(sel);
    if digital then [6, 0, BoolByte(env.digital[s]), 0, BoolByte(env.digital[s])]
    else
      var pct := PadPercent(sel, setting, range, env);
      [6, Hi(env.raw[s]), Lo(env.raw[s]), Hi(pct), Lo(pct)]
  }

  /** HandlePadDataGet. */
  function PadDataGetResp(rx: seq<byte>, img: seq<byte>, env: Env): (r: seq<byte>)
    requires |rx| == HhpInterface.BuffLen && |img| == ImageSize && env.WellFormed()
    ensures WellFramed(r)
  {
    var sel := rx[2];
    if sel != PadSelLeft && sel != PadSelRight && sel != PadSelCtr then NackResp()
    else
      var inputItem := InputItemOf(sel);
      PadDataResp(sel, ByteValue(img, inputItem) == InputDigital,
                  WordValue(img, ItemNeutralDacSetting), WordValue(img, ItemNeutralDacRange), env)
  }

  /** BuildVersionsResponsePacket. */
  function VersionResp(): (r: seq<byte>)
    ensures WellFramed(r)
  {
    [6, VersionMajor, VersionMinor, VersionBuild, DataStructureVersion]
  }

  /** BuildEnabledFeaturesResponsePacket: the long-press time is sent in tenths of a second, truncated to 8 bits. */
  function EnabledFeaturesGetResp(img: seq<byte>): (r: seq<byte>)
    requires |img| == ImageSize
    ensures WellFramed(r)
  {
    [5, ByteValue(img, ItemEnabledFeatures), Wrap8(WordValue(img, ItemLongPressActTime) / 100),
     ByteValue(img, ItemEnabledFeatures2)]
  }

  /** HandleEnabledFeaturesSet: the long-press time arrives in tenths of a second. */
  function EnabledFeaturesSet(rx: seq<byte>, st: StoreState): (r: StoreState)
    requires |rx| == HhpInterface.BuffLen && st.WellFormed()
    ensures r.WellFormed()
  {
    SetByte(SetWord(SetByte(st, ItemEnabledFeatures, rx[2]), ItemLongPressActTime, (rx[3] as int) * 100),
            ItemEnabledFeatures2, rx[4])
  }

  /** HandleModeOfOpSet: wire features are numbered from 1. */
  function ModeOfOpSet(rx: seq<byte>, st: StoreState, env: Env): (r: (seq<byte>, StoreState))
    requires |rx| == HhpInterface.BuffLen && st.WellFormed() && env.WellFormed()
    ensures WellFramed(r.0) && r.1.WellFormed()
  {
    if FeatureEnabled(env, (rx[2] as int) - 1) then
      ([3, Ack], SetByte(st, ItemCurrentActiveFeature, Wrap8((rx[2] as int) - 1)))
    else ([3, Nack], st)
  }

  /** The heartbeat status byte. */
  function HeartbeatStatus(active: bool, calibration: bool, neutralFail: bool, switchStatus: byte): byte
  {
    BoolByte(active) * 0x01 + BoolByte(calibration) * 0x02 +
    BoolByte(HeadArray.PadIsConnected(HeadArray.SensorLeft)) * 0x04 +
    BoolByte(HeadArray.PadIsConnected(HeadArray.SensorRight)) * 0x08 +
    BoolByte(HeadArray.PadIsConnected(HeadArray.SensorCenter)) * 0x10 +
    BoolByte(neutralFail) * 0x20 +
    BoolByte(switchStatus % 2 == 1) * 0x40 +
    BoolByte((switchStatus / 2) % 2 == 1) * 0x80
  }

  /** BuildHeartBeatResponsePacket. */
  function HeartbeatResp(rx: seq<byte>, img: seq<byte>, active: bool, calibration: bool, env: Env): (r: seq<byte>)
    requires |rx| == HhpInterface.BuffLen && |img| == ImageSize
    ensures WellFramed(r)
  {
    [5, rx[2], Wrap8((ByteValue(img, ItemCurrentActiveFeature) as int) + 1),
     HeartbeatStatus(active, calibration, env.neutralTestFail, env.switchStatus)]
  }

  /** Buid_DAC_Get_Response: neutral counts, setting and range, most significant byte first. */
  function NeutralDacGetResp(img: seq<byte>): (r: seq<byte>)
    requires |img| == ImageSize
    ensures WellFramed(r)
  {
    var counts := WordValue(img, ItemNeutralDacCounts);
    var setting := WordValue(img, ItemNeutralDacSetting);
    var range := WordValue(img, ItemNeutralDacRange);
    [8, Hi(counts), Lo(counts), Hi(setting), Lo(setting), Hi(range), Lo(range)]
  }

  /**
   * The range check of Handle_DAC_SetCommand, in int16_t: the bounds
   * counts + range and counts - range are computed in the target's 16-bit
   * int and wrap.
   */
  predicate DacInRange(v: u16, counts: u16, range: u16)
  {
    var c := AsInt16(counts);
    var r := AsInt16(range);
    AsInt16(v) <= AsInt16(Wrap16(c + r)) && AsInt16(v) >= AsInt16(Wrap16(c - r))
  }

  /** Handle_DAC_SetCommand: the big-endian value rx[2..3] is stored iff it is in range. */
  function NeutralDacSet(rx: seq<byte>, st: StoreState): (r: (seq<byte>, StoreState))
    requires |rx| == HhpInterface.BuffLen && st.WellFormed()
    ensures WellFramed(r.0) && r.1.WellFormed()
  {
    var v := Join(rx[2], rx[3]);
    if DacInRange(v, WordValue(st.image, ItemNeutralDacCounts), WordValue(st.image, ItemNeutralDacRange)) then
      ([3, Ack], SetWord(st, ItemNeutralDacSetting, v))
    else ([3, Nack], st)
  }

  /** CreateGetOffsetResponse: centre, left and right minimum drive speeds. */
  function DriveOffsetGetResp(img: seq<byte>): (r: seq<byte>)
    requires |img| == ImageSize
    ensures WellFramed(r)
  {
    [5, ByteValue(img, ItemCenterPadMinDriveSpeed), ByteValue(img, ItemLeftPadMinDriveSpeed),
     ByteValue(img, ItemRightPadMinDriveSpeed)]
  }

  /** CreateSetOffsetResponse. */
  function DriveOffsetSet(rx: seq<byte>, st: StoreState): (r: (seq<byte>, StoreState))
    requires |rx| == HhpInterface.BuffLen && st.WellFormed()
    ensures WellFramed(r.0) && r.1.WellFormed()
  {
    if rx[2] <= MaxDriveOffset && rx[3] <= MaxDriveOffset && rx[4] <= MaxDriveOffset then
      ([3, Ack], SetByte(SetByte(SetByte(st, ItemCenterPadMinDriveSpeed, rx[2]), ItemLeftPadMinDriveSpeed, rx[3]),
                         ItemRightPadMinDriveSpeed, rx[4]))
    else ([3, Nack], st)
  }

  /** The switch of ProcessRxdPacket on the command byte of a frame whose checksum is right. */
  function Dispatch(rx: seq<byte>, st: StoreState, mem: seq<byte>, active: bool, calibration: bool, env: Env): (h: Handled)
    requires |rx| == HhpInterface.BuffLen && st.WellFormed() && |mem| == SizeOfEeprom && env.WellFormed()
    ensures WellFramed(h.resp) && h.store.WellFormed() && |h.mem| == SizeOfEeprom
  {
    var cmd := rx[1];
    if cmd == CmdPadAssignmentGet then Handled(PadAssignmentGetResp(rx, st.image), st, mem, calibration)
    else if cmd == CmdPadAssignmentSet then Handled(AckResp(), PadAssignmentSet(rx, st), mem, calibration)
    else if cmd == CmdCalRangeGet then Handled(CalRangeGetResp(rx, st.image), st, mem, calibration)
    else if cmd == CmdCalRangeSet then Handled(AckResp(), CalRangeSet(rx, st), mem, calibration)
    else if cmd == CmdCalibrationStart then Handled(AckResp(), st, mem, true)
    else if cmd == CmdCalibrationStop then Handled(AckResp(), st, mem, false)
    else if cmd == CmdPadDataGet then Handled(PadDataGetResp(rx, st.image, env), st, mem, calibration)
    else if cmd == CmdVersionGet then Handled(VersionResp(), st, mem, calibration)
    else if cmd == CmdEnabledFeaturesGet then Handled(EnabledFeaturesGetResp(st.image), st, mem, calibration)
    else DispatchLater(rx, st, mem, active, calibration, env)
  }

  /** Dispatch for the commands from 0x39 on. */
  function DispatchLater(rx: seq<byte>, st: StoreState, mem: seq<byte>, active: bool, calibration: bool, env: Env): (h: Handled)
    requires |rx| == HhpInterface.BuffLen && st.WellFormed() && |mem| == SizeOfEeprom && env.WellFormed()
    ensures WellFramed(h.resp) && h.store.WellFormed() && |h.mem| == SizeOfEeprom
  {
    var cmd := rx[1];
    if cmd == CmdEnabledFeaturesSet then Handled(AckResp(), EnabledFeaturesSet(rx, st), mem, calibration)
    else if cmd == CmdModeOfOperationSet then
      var (resp, st') := ModeOfOpSet(rx, st, env); Handled(resp, st', mem, calibration)
    else DispatchStatus(rx, st, mem, active, calibration, env)
  }

  /** Dispatch for the commands from 0x3B on. */
  function DispatchStatus(rx: seq<byte>, st: StoreState, mem: seq<byte>, active: bool, calibration: bool, env: Env): (h: Handled)
    requires |rx| == HhpInterface.BuffLen && st.WellFormed() && |mem| == SizeOfEeprom && env.WellFormed()
    ensures WellFramed(h.resp) && h.store.WellFormed() && |h.mem| == SizeOfEeprom
  {
    var cmd := rx[1];
    if cmd == CmdHeartbeat then Handled(HeartbeatResp(rx, st.image, active, calibration, env), st, mem, calibration)
    else if cmd == CmdNeutralDacGet then Handled(NeutralDacGetResp(st.image), st, mem, calibration)
    else if cmd == CmdNeutralDacSet then
      var (resp, st') := NeutralDacSet(rx, st); Handled(resp, st', mem, calibration)
    else DispatchParameter(rx, st, mem, active, calibration, env)
  }

  /** Dispatch for the commands from 0x3E on, and any other. */
  function DispatchParameter(rx: seq<byte>, st: StoreState, mem: seq<byte>, active: bool, calibration: bool, env: Env): (h: Handled)
    requires |rx| == HhpInterface.BuffLen && st.WellFormed() && |mem| == SizeOfEeprom && env.WellFormed()
    ensures WellFramed(h.resp) && h.store.WellFormed() && |h.mem| == SizeOfEeprom
  {
    var cmd := rx[1];
    if cmd == CmdSaveParameters then
      var (st', mem') := FlushState(st, mem, true); Handled(AckResp(), st', mem', calibration)
    else if cmd == CmdResetParameters then
      var (st', mem') := FlushState(st.(image := Defaults(st.image)), mem, true); Handled(AckResp(), st', mem', calibration)
    else if cmd == CmdDriveOffsetGet then Handled(DriveOffsetGetResp(st.image), st, mem, calibration)
    else if cmd == CmdDriveOffsetSet then
      var (resp, st') := DriveOffsetSet(rx, st); Handled(resp, st', mem, calibration)
    else Handled(NackResp(), st, mem, calibration)
  }

  /** The frame's trailing byte is the checksum of the bytes before it. */
  predicate ChecksumOk(rx: seq<byte>)
    requires |rx| == HhpInterface.BuffLen && 1 <= rx[0] <= HhpInterface.BuffLen
  {
    Checksum(rx, rx[0] - 1) == rx[rx[0] - 1]
  }

  /** The transmit buffer after a response and its checksum are written at its start. */
  function Emit(tx: seq<byte>, resp: seq<byte>): (r: seq<byte>)
    requires |tx| == TxBuffLen && WellFramed(resp)
    ensures |r| == TxBuffLen
  {
    var tail := [Sum(resp) % 0x100] + tx[|resp| + 1..];
    resp + tail
  }

  /** ProcessRxdPacket's effect: the transmit buffer, the settings, the EEPROM and the calibration flag. */
  datatype Reply = Reply(tx: seq<byte>, store: StoreState, mem: seq<byte>, calibration: bool)

  /**
   * The frame check and dispatch of ProcessRxdPacket, for a frame
   * haHhp_RxPacket accepted (so its length byte is at most 8): a wrong
   * checksum or a length byte of 0 is answered with a NACK.
   */
  function Handle(rx: seq<byte>, st: StoreState, mem: seq<byte>, active: bool, calibration: bool, env: Env): (h: Handled)
    requires |rx| == HhpInterface.BuffLen && rx[0] <= HhpInterface.BuffLen
    requires st.WellFormed() && |mem| == SizeOfEeprom && env.WellFormed()
    ensures WellFramed(h.resp) && h.store.WellFormed() && |h.mem| == SizeOfEeprom
  {
    if rx[0] == 0 || !ChecksumOk(rx) then Handled(NackResp(), st, mem, calibration)
    else Dispatch(rx, st, mem, active, calibration, env)
  }

  /** ProcessRxdPacket: the handled frame's response, ended by its checksum, in the transmit buffer. */
  function Process(rx: seq<byte>, tx: seq<byte>, st: StoreState, mem: seq<byte>,
                   active: bool, calibration: bool, env: Env): (r: Reply)
    requires |rx| == HhpInterface.BuffLen && rx[0] <= HhpInterface.BuffLen && |tx| == TxBuffLen
    requires st.WellFormed() && |mem| == SizeOfEeprom && env.WellFormed()
    ensures |r.tx| == TxBuffLen && r.store.WellFormed() && |r.mem| == SizeOfEeprom
  {
    var h := Handle(rx, st, mem, active, calibration, env);
    Reply(Emit(tx, h.resp), h.store, h.mem, h.calibration)
  }

  /** The length byte and trailing checksum of the response in a transmit buffer. */
  predicate ResponseChecksummed(tx: seq<byte>)
  {
    |tx| == TxBuffLen && 3 <= tx[0] <= TxBuffLen && tx[tx[0] - 1] == Checksum(tx, tx[0] - 1)
  }

  /** The transmit buffer after Emit: the response, its checksum, the rest untouched. */
  lemma EmitLayout(tx: seq<byte>, resp: seq<byte>)
    requires |tx| == TxBuffLen && WellFramed(resp)
    ensures Emit(tx, resp)[..|resp|] == resp
    ensures Emit(tx, resp)[|resp|] == Sum(resp) % 0x100
    ensures Emit(tx, resp)[|resp| + 1..] == tx[|resp| + 1..]
  {
    var tail := [Sum(resp) % 0x100] + tx[|resp| + 1..];
    assert Emit(tx, resp) == resp + tail;
    assert (resp + tail)[|resp| + 1..] == tail[1..];
  }

  /** Every response is 3 to 10 bytes long and ends with the checksum of the bytes before it. */
  lemma ResponseHasChecksum(rx: seq<byte>, tx: seq<byte>, st: StoreState, mem: seq<byte>,
                            active: bool, calibration: bool, env: Env)
    requires |rx| == HhpInterface.BuffLen && rx[0] <= HhpInterface.BuffLen && |tx| == TxBuffLen
    requires st.WellFormed() && |mem| == SizeOfEeprom && env.WellFormed()
    ensures ResponseChecksummed(Process(rx, tx, st, mem, active, calibration, env).tx)
  {
    var h := Handle(rx, st, mem, active, calibration, env);
    EmitLayout(tx, h.resp);
    var out := Emit(tx, h.resp);
    assert out[0] == |h.resp| + 1;
  }

  /** The three bytes of an ACK or NACK response: length, code, checksum. */
  lemma ShortBytes(tx: seq<byte>, code: byte)
    requires |tx| == TxBuffLen
    ensures Emit(tx, [3, code])[..3] == [3, code, Wrap8(3 + code)] && Emit(tx, [3, code])[3..] == tx[3..]
  {
    EmitLayout(tx, [3, code]);
    assert Sum([3, code]) == Sum([3]) + code;
  }

  /** A frame whose trailing byte is not its checksum, or whose length is 0, gets a NACK and changes nothing. */
  lemma BadFrameNacks(rx: seq<byte>, tx: seq<byte>, st: StoreState, mem: seq<byte>,
                      active: bool, calibration: bool, env: Env)
    requires |rx| == HhpInterface.BuffLen && rx[0] <= HhpInterface.BuffLen && |tx| == TxBuffLen
    requires st.WellFormed() && |mem| == SizeOfEeprom && env.WellFormed()
    requires rx[0] == 0 || !ChecksumOk(rx)
    ensures var r := Process(rx, tx, st, mem, active, calibration, env);
      r.tx[..3] == [3, Nack, 3 + Nack] && r.tx[3..] == tx[3..] &&
      r.store == st && r.mem == mem && r.calibration == calibration
  {
    ShortBytes(tx, Nack);
  }

  /** The command codes the firmware answers. */
  predicate KnownCommand(cmd: byte)
  {
    CmdPadAssignmentGet <= cmd <= CmdDriveOffsetSet
  }

  /** The commands always answered with an ACK. */
  predicate AlwaysAcked(cmd: byte)
  {
    cmd in {CmdPadAssignmentSet, CmdCalRangeSet, CmdCalibrationStart, CmdCalibrationStop,
            CmdEnabledFeaturesSet, CmdSaveParameters, CmdResetParameters}
  }

  /** With a correct checksum an unknown command gets a NACK and changes nothing. */
  lemma UnknownCommandNacks(rx: seq<byte>, tx: seq<byte>, st: StoreState, mem: seq<byte>,
                            active: bool, calibration: bool, env: Env)
    requires |rx| == HhpInterface.BuffLen && 1 <= rx[0] <= HhpInterface.BuffLen && |tx| == TxBuffLen
    requires st.WellFormed() && |mem| == SizeOfEeprom && env.WellFormed() && ChecksumOk(rx)
    requires !KnownCommand(rx[1])
    ensures var r := Process(rx, tx, st, mem, active, calibration, env);
      r.tx[..3] == [3, Nack, 3 + Nack] && r.store == st && r.mem == mem && r.calibration == calibration
  {
    assert Dispatch(rx, st, mem, active, calibration, env) == Handled(NackResp(), st, mem, calibration);
    ShortBytes(tx, Nack);
  }

  /**
   * With a correct checksum pad-assignment-set, cal-range-set, calibration
   * start and stop, features-set, save and reset always get an ACK, and the
   * calibration commands set and clear the calibration flag.
   */
  lemma AlwaysAckedCommandsAck(rx: seq<byte>, tx: seq<byte>, st: StoreState, mem: seq<byte>,
                               active: bool, calibration: bool, env: Env)
    requires |rx| == HhpInterface.BuffLen && 1 <= rx[0] <= HhpInterface.BuffLen && |tx| == TxBuffLen
    requires st.WellFormed() && |mem| == SizeOfEeprom && env.WellFormed() && ChecksumOk(rx)
    requires AlwaysAcked(rx[1])
    ensures var r := Process(rx, tx, st, mem, active, calibration, env);
      r.tx[..3] == [3, Ack, 3 + Ack] &&
      (rx[1] == CmdCalibrationStart ==> r.calibration) &&
      (rx[1] == CmdCalibrationStop ==> !r.calibration) &&
      (rx[1] != CmdCalibrationStart && rx[1] != CmdCalibrationStop ==> r.calibration == calibration)
  {
    var h := Dispatch(rx, st, mem, active, calibration, env);
    AckedDispatch(rx, st, mem, active, calibration, env);
    assert Process(rx, tx, st, mem, active, calibration, env) == Reply(Emit(tx, h.resp), h.store, h.mem, h.calibration);
    ShortBytes(tx, Ack);
  }

  /** The handler of an always-acknowledged command answers ACK and sets the calibration flag as the command says. */
  lemma AckedDispatch(rx: seq<byte>, st: StoreState, mem: seq<byte>, active: bool, calibration: bool, env: Env)
    requires |rx| == HhpInterface.BuffLen && st.WellFormed() && |mem| == SizeOfEeprom && env.WellFormed()
    requires AlwaysAcked(rx[1])
    ensures Dispatch(rx, st, mem, active, calibration, env).resp == AckResp()
    ensures Dispatch(rx, st, mem, active, calibration, env).calibration == AckedCalibration(rx[1], calibration)
  {
  }

  /** The calibration flag after an always-acknowledged command. */
  function AckedCalibration(cmd: byte, calibration: bool): bool
  {
    if cmd == CmdCalibrationStart then true else if cmd == CmdCalibrationStop then false else calibration
  }

  /**
   * Drive-offset-set stores all three minimum drive speeds and ACKs iff each
   * is at most 60; otherwise it NACKs and stores nothing.
   */
  lemma DriveOffsetSetChecked(rx: seq<byte>, st: StoreState)
    requires |rx| == HhpInterface.BuffLen && st.WellFormed()
    ensures var (resp, st') := DriveOffsetSet(rx, st);
      var ok := rx[2] <= MaxDriveOffset && rx[3] <= MaxDriveOffset && rx[4] <= MaxDriveOffset;
      resp[1] == (if ok then Ack else Nack) &&
      (ok ==> ByteValue(st'.image, ItemCenterPadMinDriveSpeed) == rx[2] &&
              ByteValue(st'.image, ItemLeftPadMinDriveSpeed) == rx[3] &&
              ByteValue(st'.image, ItemRightPadMinDriveSpeed) == rx[4]) &&
      (!ok ==> st' == st)
  {
    var s1 := SetByte(st, ItemCenterPadMinDriveSpeed, rx[2]);
    var s2 := SetByte(s1, ItemLeftPadMinDriveSpeed, rx[3]);
    SetByteValue(st, ItemCenterPadMinDriveSpeed, rx[2], ItemCenterPadMinDriveSpeed);
    SetByteValue(s1, ItemLeftPadMinDriveSpeed, rx[3], ItemCenterPadMinDriveSpeed);
    SetByteValue(s1, ItemLeftPadMinDriveSpeed, rx[3], ItemLeftPadMinDriveSpeed);
    SetByteValue(s2, ItemRightPadMinDriveSpeed, rx[4], ItemCenterPadMinDriveSpeed);
    SetByteValue(s2, ItemRightPadMinDriveSpeed, rx[4], ItemLeftPadMinDriveSpeed);
    SetByteValue(s2, ItemRightPadMinDriveSpeed, rx[4], ItemRightPadMinDriveSpeed);
  }

  /**
   * Neutral-DAC-set stores the big-endian value rx[2..3] and ACKs iff it lies
   * within the wrapped bounds counts - range .. counts + range; otherwise it
   * NACKs and stores nothing.
   */
  lemma NeutralDacSetChecked(rx: seq<byte>, st: StoreState)
    requires |rx| == HhpInterface.BuffLen && st.WellFormed()
    ensures var (resp, st') := NeutralDacSet(rx, st);
      var v := Join(rx[2], rx[3]);
      var ok := DacInRange(v, WordValue(st.image, ItemNeutralDacCounts), WordValue(st.image, ItemNeutralDacRange));
      resp[1] == (if ok then Ack else Nack) &&
      (ok ==> WordValue(st'.image, ItemNeutralDacSetting) == v) &&
      (!ok ==> st' == st)
  {
    var v := Join(rx[2], rx[3]);
    SetWordSemantics(st, ItemNeutralDacSetting, v, ItemNeutralDacSetting);
  }

  /** For 12-bit DAC quantities no bound wraps, and the range check is the plain interval test. */
  lemma DacInRangeInterval(v: u16, counts: u16, range: u16)
    requires v < 0x1000 && counts < 0x1000 && range < 0x1000
    ensures DacInRange(v, counts, range) <==> counts - range <= v <= counts + range
  {
    if counts < range {
      assert Wrap16(counts - range) == counts - range + 0x1_0000;
    }
  }

  /**
   * The heartbeat response has length 5, echoes rx[2], reports the stored
   * feature plus one, and its status bits are, from 0x01 up: device active,
   * calibrating, left, right and centre pad connected (always), neutral-test
   * failure, user switch, mode switch.
   */
  lemma HeartbeatReports(rx: seq<byte>, img: seq<byte>, active: bool, calibration: bool, env: Env)
    requires |rx| == HhpInterface.BuffLen && |img| == ImageSize
    ensures var r := HeartbeatResp(rx, img, active, calibration, env); var s := r[3];
      r[0] == 5 && r[1] == rx[2] && r[2] == (ByteValue(img, ItemCurrentActiveFeature) + 1) % 256 &&
      (s % 2 == 1 <==> active) &&
      ((s / 0x02) % 2 == 1 <==> calibration) &&
      (s / 0x04) % 2 == 1 && (s / 0x08) % 2 == 1 && (s / 0x10) % 2 == 1 &&
      ((s / 0x20) % 2 == 1 <==> env.neutralTestFail) &&
      ((s / 0x40) % 2 == 1 <==> env.switchStatus % 2 == 1) &&
      (s / 0x80 == 1 <==> (env.switchStatus / 2) % 2 == 1)
  {
    var s := HeartbeatResp(rx, img, active, calibration, env)[3];
    StatusBits(BoolByte(active), BoolByte(calibration), 1, 1, 1, BoolByte(env.neutralTestFail),
               BoolByte(env.switchStatus % 2 == 1), BoolByte((env.switchStatus / 2) % 2 == 1));
  }

  /** Eight 0-or-1 values weighted by the powers of two are read back bit by bit. */
  lemma StatusBits(b0: byte, b1: byte, b2: byte, b3: byte, b4: byte, b5: byte, b6: byte, b7: byte)
    requires b0 <= 1 && b1 <= 1 && b2 <= 1 && b3 <= 1 && b4 <= 1 && b5 <= 1 && b6 <= 1 && b7 <= 1
    ensures var s := b0 * 0x01 + b1 * 0x02 + b2 * 0x04 + b3 * 0x08 + b4 * 0x10 + b5 * 0x20 + b6 * 0x40 + b7 * 0x80;
      s % 2 == b0 && (s / 0x02) % 2 == b1 && (s / 0x04) % 2 == b2 && (s / 0x08) % 2 == b3 &&
      (s / 0x10) % 2 == b4 && (s / 0x20) % 2 == b5 && (s / 0x40) % 2 == b6 && s / 0x80 == b7
  {
    var t4 := b4 + 2 * b5 + 4 * b6 + 8 * b7;
    var s := b0 + 2 * b1 + 4 * b2 + 8 * b3 + 16 * t4;
    assert s / 0x02 == b1 + 2 * b2 + 4 * b3 + 8 * t4;
    assert s / 0x04 == b2 + 2 * b3 + 4 * t4;
    assert s / 0x08 == b3 + 2 * t4;
    assert s / 0x10 == t4;
    assert s / 0x20 == b5 + 2 * b6 + 4 * b7;
    assert s / 0x40 == b6 + 2 * b7;
  }

  /**
   * Assigning a pad a known output code and pad type, then reading its
   * assignment, reports the same codes.
   */
  lemma PadAssignmentSetThenGet(rx: seq<byte>, st: StoreState, q: seq<byte>)
    requires |rx| == HhpInterface.BuffLen && st.WellFormed() && |q| == HhpInterface.BuffLen && q[2] == rx[2]
    requires rx[2] in {PadSelLeft, PadSelRight, PadSelCtr}
    requires rx[3] in {OutputSelLeft, OutputSelRight, OutputSelFwd, OutputSelBackwards, OutputSelOff}
    requires rx[4] in {PadTypeDigital, PadTypeProportional}
    ensures PadAssignmentGetResp(q, PadAssignmentSet(rx, st).image) == [4, rx[3], rx[4]]
  {
    var sel := rx[2];
    var mapItem := if sel == PadSelLeft then ItemLeftPadOutputMap
      else if sel == PadSelRight then ItemRightPadOutputMap else ItemCtrPadOutputMap;
    var inputItem := InputItemOf(sel);
    var s1 := SetByte(st, mapItem, OutputMapToEnum(rx[3]));
    SetByteValue(st, mapItem, OutputMapToEnum(rx[3]), mapItem);
    SetByteValue(s1, inputItem, InputTypeToEnum(rx[4]), mapItem);
    SetByteValue(s1, inputItem, InputTypeToEnum(rx[4]), inputItem);
    OutputMapRoundTrip(rx[3], 0);
  }

  /** Setting the features, then reading them, reports the bytes sent. */
  lemma EnabledFeaturesSetThenGet(rx: seq<byte>, st: StoreState)
    requires |rx| == HhpInterface.BuffLen && st.WellFormed()
    ensures EnabledFeaturesGetResp(EnabledFeaturesSet(rx, st).image) == [5, rx[2], rx[3], rx[4]]
  {
    EnabledFeaturesStored(rx, st);
    var t := (rx[3] as int) * 100;
    assert t / 100 == rx[3];
  }

  /** Features-set stores both feature bytes and the long-press time in milliseconds. */
  lemma EnabledFeaturesStored(rx: seq<byte>, st: StoreState)
    requires |rx| == HhpInterface.BuffLen && st.WellFormed()
    ensures var img := EnabledFeaturesSet(rx, st).image;
      ByteValue(img, ItemEnabledFeatures) == rx[2] &&
      WordValue(img, ItemLongPressActTime) == (rx[3] as int) * 100 &&
      ByteValue(img, ItemEnabledFeatures2) == rx[4]
  {
    var t := (rx[3] as int) * 100;
    var s1 := SetByte(st, ItemEnabledFeatures, rx[2]);
    var s2 := SetWord(s1, ItemLongPressActTime, t);
    SetByteValue(st, ItemEnabledFeatures, rx[2], ItemEnabledFeatures);
    SetWordKeepsByte(s1, ItemLongPressActTime, t, ItemEnabledFeatures);
    SetByteValue(s2, ItemEnabledFeatures2, rx[4], ItemEnabledFeatures);
    SetWordValue(s1, ItemLongPressActTime, t, ItemLongPressActTime);
    SetByteKeepsWord(s2, ItemEnabledFeatures2, rx[4], ItemLongPressActTime);
    SetByteValue(s2, ItemEnabledFeatures2, rx[4], ItemEnabledFeatures2);
  }

  /** An accepted drive-offset-set, then drive-offset-get, reports the speeds sent. */
  lemma DriveOffsetSetThenGet(rx: seq<byte>, st: StoreState)
    requires |rx| == HhpInterface.BuffLen && st.WellFormed()
    requires rx[2] <= MaxDriveOffset && rx[3] <= MaxDriveOffset && rx[4] <= MaxDriveOffset
    ensures DriveOffsetGetResp(DriveOffsetSet(rx, st).1.image) == [5, rx[2], rx[3], rx[4]]
  {
    DriveOffsetSetChecked(rx, st);
  }

  /** With every feature reported disabled, as the firmware now does, mode-of-operation-set always NACKs and stores nothing. */
  lemma ModeOfOpSetToday(rx: seq<byte>, st: StoreState, env: Env)
    requires |rx| == HhpInterface.BuffLen && st.WellFormed() && env.WellFormed()
    requires env.enabled == AppCommon.EnabledTable()
    ensures ModeOfOpSet(rx, st, env) == ([3, Nack], st)
  {
    if 0 <= (rx[2] as int) - 1 < FeatureEol {
      assert !AppCommon.EnabledTable()[(rx[2] as int) - 1];
    }
  }

  /** Items whose bytes agree hold the same 16-bit value. */
  lemma WordOfBytes(img1: seq<byte>, img2: seq<byte>, i: ItemId)
    requires |img1| == ImageSize && |img2| == ImageSize && TypeOf(i) == Uint16
    requires ItemBytes(img1, i) == ItemBytes(img2, i)
    ensures WordValue(img1, i) == WordValue(img2, i)
  {
    ItemInImage(i);
    assert ItemBytes(img1, i)[0] == img1[Addr(i)] && ItemBytes(img2, i)[0] == img2[Addr(i)];
    assert ItemBytes(img1, i)[1] == img1[Addr(i) + 1] && ItemBytes(img2, i)[1] == img2[Addr(i) + 1];
  }

  /** The responses that read settings report the stored values, 16-bit ones most significant byte first. */
  lemma GetResponsesReportStore(rx: seq<byte>, img: seq<byte>)
    requires |rx| == HhpInterface.BuffLen && |img| == ImageSize
    ensures var r := NeutralDacGetResp(img);
      Join(r[1], r[2]) == WordValue(img, ItemNeutralDacCounts) &&
      Join(r[3], r[4]) == WordValue(img, ItemNeutralDacSetting) &&
      Join(r[5], r[6]) == WordValue(img, ItemNeutralDacRange)
    ensures var r := CalRangeGetResp(rx, img);
      |r| == 9 && Join(r[1], r[2]) == WordValue(img, CalItem(rx[2], 0)) &&
      Join(r[3], r[4]) == WordValue(img, CalItem(rx[2], 1)) &&
      Join(r[5], r[6]) == WordValue(img, CalItem(rx[2], 2)) &&
      Join(r[7], r[8]) == WordValue(img, CalItem(rx[2], 3))
  {
    JoinSplit(WordValue(img, ItemNeutralDacCounts));
    JoinSplit(WordValue(img, ItemNeutralDacSetting));
    JoinSplit(WordValue(img, ItemNeutralDacRange));
    JoinSplit(WordValue(img, CalItem(rx[2], 0)));
    JoinSplit(WordValue(img, CalItem(rx[2], 1)));
    JoinSplit(WordValue(img, CalItem(rx[2], 2)));
    JoinSplit(WordValue(img, CalItem(rx[2], 3)));
  }

  /**
   * Pad-data-get NACKs an unknown selector; for a known one it answers the
   * pad-data response of the pad's stored input type and the stored
   * neutral-DAC setting and range.
   */
  lemma PadDataSelects(rx: seq<byte>, img: seq<byte>, env: Env)
    requires |rx| == HhpInterface.BuffLen && |img| == ImageSize && env.WellFormed()
    ensures var sel := rx[2];
      PadDataGetResp(rx, img, env) ==
        if sel != PadSelLeft && sel != PadSelRight && sel != PadSelCtr then NackResp()
        else PadDataResp(sel, ByteValue(img, InputItemOf(sel)) == InputDigital,
                         WordValue(img, ItemNeutralDacSetting), WordValue(img, ItemNeutralDacRange), env)
  {
  }

  /**
   * The pad-data response reports a digital pad's state (0 or 1) twice, and
   * a proportional pad's raw reading and demand percentage, most significant
   * byte first; a proportional demand on the wrong side of the neutral
   * setting reports 0.
   */
  lemma PadDataReports(sel: byte, digital: bool, setting: u16, range: u16, env: Env)
    requires env.WellFormed()
    ensures var r := PadDataResp(sel, digital, setting, range, env); var s := SensorOf(sel);
      |r| == 5 && r[0] == 6 &&
      (digital ==> r[1] == 0 && r[3] == 0 && r[2] == r[4] && r[2] <= 1 && (r[2] == 1 <==> env.digital[s])) &&
      (!digital ==>
        Join(r[1], r[2]) == env.raw[s] &&
        Join(r[3], r[4]) == PadPercent(sel, setting, range, env) &&
        (sel == PadSelLeft && env.outputLeftRight > setting ==> Join(r[3], r[4]) == 0) &&
        (sel == PadSelRight && env.outputLeftRight < setting ==> Join(r[3], r[4]) == 0) &&
        (sel != PadSelLeft && sel != PadSelRight && env.outputFwdRev < setting ==> Join(r[3], r[4]) == 0))
  {
    if !digital {
      JoinSplit(env.raw[SensorOf(sel)]);
      JoinSplit(PadPercent(sel, setting, range, env));
    }
  }

  /** Setting a pad's thresholds and reading its range back returns the bytes sent. */
  lemma CalRangeSetThenGet(rx: seq<byte>, st: StoreState, q: seq<byte>)
    requires |rx| == HhpInterface.BuffLen && st.WellFormed() && |q| == HhpInterface.BuffLen && q[2] == rx[2]
    ensures CalRangeGetResp(q, CalRangeSet(rx, st).image)[5..9] == rx[3..7]
  {
    var lo := CalItem(rx[2], 2);
    var hi := CalItem(rx[2], 3);
    var s1 := SetWord(st, lo, Join(rx[3], rx[4]));
    var img := SetWord(s1, hi, Join(rx[5], rx[6])).image;
    assert img == CalRangeSet(rx, st).image;
    assert WordValue(img, lo) == Join(rx[3], rx[4]) by {
      SetWordValue(st, lo, Join(rx[3], rx[4]), lo);
      SetWordValue(s1, hi, Join(rx[5], rx[6]), lo);
    }
    assert WordValue(img, hi) == Join(rx[5], rx[6]) by {
      SetWordValue(s1, hi, Join(rx[5], rx[6]), hi);
    }
    SplitJoin(rx[3], rx[4]);
    SplitJoin(rx[5], rx[6]);
    assert CalRangeGetResp(q, img)[5..9] == [rx[3], rx[4], rx[5], rx[6]];
  }

  /** SetDefaultValues does not assign the neutral-DAC range. */
  lemma DefaultsKeepRange(img: seq<byte>)
    requires |img| == ImageSize
    ensures WordValue(Defaults(img), ItemNeutralDacRange) == WordValue(img, ItemNeutralDacRange)
  {
    DefaultsKeepOthers(img, ItemNeutralDacRange);
    WordOfBytes(Defaults(img), img, ItemNeutralDacRange);
  }

  /** The module's zero-initialised RAM state. */
  function ZeroStore(): (st: StoreState)
    ensures st.WellFormed()
  {
    StoreState(seq(ImageSize, _ => 0), seq(NumItems, _ => false), false, 0)
  }

  /**
   * The firmware's start-up over its zero-initialised image and an
   * unprogrammed EEPROM leaves the neutral-DAC range 0, so the as-written
   * percentage of a proportional pad would divide by zero.
   */
  lemma ZeroRangeAfterFirstStartUp(mem: seq<byte>)
    requires |mem| == SizeOfEeprom && mem[0] != InitializedVal
    ensures WordValue(InitState(ZeroStore(), mem).1.image, ItemNeutralDacRange) == 0
  {
    var boot := ZeroStore();
    MemoryMapLayout();
    InitUnprogrammed(boot, mem);
    DefaultsKeepRange(boot.image);
    ItemInImage(ItemNeutralDacRange);
    assert boot.image[Addr(ItemNeutralDacRange)] == 0 && boot.image[Addr(ItemNeutralDacRange) + 1] == 0;
  }

  /** The model's percentage agrees with the firmware's whenever the range is non-zero, and is never above 100 within range. */
  lemma DemandPercentAgrees(excess: u16, range: u16)
    ensures range != 0 ==> DemandPercent(excess, range) == DemandPercentAsWritten(excess, range)
    ensures range != 0 && excess <= range && range < 656 ==> DemandPercent(excess, range) <= 100
  {
    if range != 0 && excess <= range && range < 656 {
      assert excess * 100 < 0x1_0000;
      assert excess * 100 <= range * 100;
      DivMonotone(excess * 100, range);
    }
  }

  lemma DivMonotone(x: nat, d: nat)
    requires 0 < d && x <= d * 100
    ensures x / d <= 100
  {
  }

  /**
   * The frame length the firmware's checksum test uses: the uint8_t length
   * rx[0] - 1, and the index of the trailing byte, rx[0] - 1 as an int.
   */
  function ChecksumSpanAsWritten(len: byte): (r: (byte, int))
  {
    (Wrap8(len - 1), len - 1)
  }

  /**
   * haHhp_RxPacket accepts a frame whose length byte is 0; the firmware then
   * sums 255 bytes of an 8-byte buffer and compares with the byte before it.
   */
  lemma ZeroLengthFrameOverruns(buf: seq<byte>, input: seq<Option<byte>>)
    requires |buf| == HhpInterface.BuffLen && input == [Some(0)]
    ensures HhpInterface.RxPacket(buf, input).ok && HhpInterface.RxPacket(buf, input).buffer[0] == 0
    ensures ChecksumSpanAsWritten(0).0 > HhpInterface.BuffLen && ChecksumSpanAsWritten(0).1 < 0
  {
  }

  /**
   * The calibration-range response is 10 bytes long: its last two bytes lie
   * beyond the firmware's 8-byte transmit buffer.
   */
  lemma CalRangeResponseOverflows(rx: seq<byte>, tx: seq<byte>, st: StoreState, mem: seq<byte>,
                                  active: bool, calibration: bool, env: Env)
    requires |rx| == HhpInterface.BuffLen && 1 <= rx[0] <= HhpInterface.BuffLen && |tx| == TxBuffLen
    requires st.WellFormed() && |mem| == SizeOfEeprom && env.WellFormed()
    requires ChecksumOk(rx) && rx[1] == CmdCalRangeGet
    ensures Process(rx, tx, st, mem, active, calibration, env).tx[0] == 10 > HhpInterface.BuffLen
  {
  }

  // ---------------------------------------------------------------------
  // The handlers over the receive and transmit buffers and the store.

  /** The buffers and the store are distinct objects. */
  ghost predicate Separate(rxd: array<byte>, tx: array<byte>, store: Store)
    reads store, store.bsp
  {
    rxd.Length == HhpInterface.BuffLen && tx.Length == TxBuffLen && store.Valid() &&
    rxd != tx && rxd != store.image && tx != store.image && rxd != store.bsp.mem && tx != store.bsp.mem
  }

  /** The transmit buffer begins with `resp` and is otherwise as it was. */
  ghost predicate Emitted(tx: array<byte>, before: seq<byte>, resp: seq<byte>)
    reads tx
  {
    |resp| <= tx.Length == |before| && tx[..] == resp + before[|resp|..]
  }

  method BuildAckPacket(tx: array<byte>)
    requires tx.Length == TxBuffLen
    modifies tx
    ensures Emitted(tx, old(tx[..]), AckResp())
  {
    tx[0] := 3;
    tx[1] := Ack;
  }

  method BuildNackPacket(tx: array<byte>)
    requires tx.Length == TxBuffLen
    modifies tx
    ensures Emitted(tx, old(tx[..]), NackResp())
  {
    tx[0] := 3;
    tx[1] := Nack;
  }

  method BuildVersionsResponsePacket(tx: array<byte>)
    requires tx.Length == TxBuffLen
    modifies tx
    ensures Emitted(tx, old(tx[..]), VersionResp())
  {
    tx[0] := 6;
    tx[1] := VersionMajor;
    tx[2] := VersionMinor;
    tx[3] := VersionBuild;
    tx[4] := DataStructureVersion;
  }

  method HandlePadAssignmentGet(rxd: array<byte>, tx: array<byte>, store: Store)
    requires Separate(rxd, tx, store)
    modifies tx
    ensures Emitted(tx, old(tx[..]), PadAssignmentGetResp(rxd[..], store.State().image))
  {
    var inputType: byte;
    var outputAssignment: byte;
    var sel := rxd[2];
    if sel == PadSelLeft {
      inputType := store.GetByte(ItemLeftPadInputType);
      outputAssignment := store.GetByte(ItemLeftPadOutputMap);
    } else if sel == PadSelRight {
      inputType := store.GetByte(ItemRightPadInputType);
      outputAssignment := store.GetByte(ItemRightPadOutputMap);
    } else if sel == PadSelCtr {
      inputType := store.GetByte(ItemCtrPadInputType);
      outputAssignment := store.GetByte(ItemCtrPadOutputMap);
    } else {
      BuildNackPacket(tx);
      return;
    }
    tx[0] := 4;
    tx[1] := OutputMapFromEnum(outputAssignment);
    tx[2] := if inputType == InputDigital then PadTypeDigital else PadTypeProportional;
  }

  method HandlePadAssignmentSet(rxd: array<byte>, store: Store)
    requires store.Valid() && rxd.Length == HhpInterface.BuffLen && rxd != store.image
    modifies store, store.image, store.needToSave
    ensures store.Valid() && store.State() == PadAssignmentSet(old(rxd[..]), old(store.State()))
    ensures store.bsp.mem[..] == old(store.bsp.mem[..])
  {
    var outputMap := OutputMapToEnum(rxd[3]);
    var inputType := InputTypeToEnum(rxd[4]);
    if rxd[2] == PadSelLeft {
      store.SetByteItem(ItemLeftPadOutputMap, outputMap);
      store.SetByteItem(ItemLeftPadInputType, inputType);
    } else if rxd[2] == PadSelRight {
      store.SetByteItem(ItemRightPadOutputMap, outputMap);
      store.SetByteItem(ItemRightPadInputType, inputType);
    } else {
      store.SetByteItem(ItemCtrPadOutputMap, outputMap);
      store.SetByteItem(ItemCtrPadInputType, inputType);
    }
  }

  method HandlePadCalibrationDataGet(rxd: array<byte>, tx: array<byte>, store: Store)
    requires Separate(rxd, tx, store)
    modifies tx
    ensures Emitted(tx, old(tx[..]), CalRangeGetResp(rxd[..], store.State().image))
  {
    var sel := rxd[2];
    var minAdc := store.GetWord(CalItem(sel, 0));
    var maxAdc := store.GetWord(CalItem(sel, 1));
    var minThresh := store.GetWord(CalItem(sel, 2));
    var maxThresh := store.GetWord(CalItem(sel, 3));
    ghost var before := tx[..];
    tx[0] := 10;
    tx[1] := Hi(minAdc);
    tx[2] := Lo(minAdc);
    tx[3] := Hi(maxAdc);
    tx[4] := Lo(maxAdc);
    tx[5] := Hi(minThresh);
    tx[6] := Lo(minThresh);
    tx[7] := Hi(maxThresh);
    tx[8] := Lo(maxThresh);
    ghost var resp := CalRangeGetResp(rxd[..], store.State().image);
    assert tx[..9] == resp;
    EmittedFromParts(tx, before, resp);
  }

  method HandlePadCalibrationDataSet(rxd: array<byte>, store: Store)
    requires store.Valid() && rxd.Length == HhpInterface.BuffLen && rxd != store.image
    modifies store, store.image, store.needToSave
    ensures store.Valid() && store.State() == CalRangeSet(old(rxd[..]), old(store.State()))
    ensures store.bsp.mem[..] == old(store.bsp.mem[..])
  {
    var sel := rxd[2];
    var minThresh := Join(rxd[3], rxd[4]);
    var maxThresh := Join(rxd[5], rxd[6]);
    store.SetWordItem(CalItem(sel, 2), minThresh);
    store.SetWordItem(CalItem(sel, 3), maxThresh);
  }

  method HandlePadDataGet(rxd: array<byte>, tx: array<byte>, store: Store, env: Env)
    requires Separate(rxd, tx, store) && env.WellFormed()
    modifies tx
    ensures Emitted(tx, old(tx[..]), PadDataGetResp(rxd[..], store.State().image, env))
  {
    var setting := store.GetWord(ItemNeutralDacSetting);
    var range := store.GetWord(ItemNeutralDacRange);
    var inputType: byte;
    var sel := rxd[2];
    if sel == PadSelLeft {
      inputType := store.GetByte(ItemLeftPadInputType);
    } else if sel == PadSelRight {
      inputType := store.GetByte(ItemRightPadInputType);
    } else if sel == PadSelCtr {
      inputType := store.GetByte(ItemCtrPadInputType);
    } else {
      BuildNackPacket(tx);
      return;
    }
    WritePadData(tx, sel, inputType == InputDigital, setting, range, env);
  }

  /** The pad-data response bytes of HandlePadDataGet, once the selector is known to be valid. */
  method WritePadData(tx: array<byte>, sel: byte, digital: bool, setting: u16, range: u16, env: Env)
    requires tx.Length == TxBuffLen && env.WellFormed()
    modifies tx
    ensures Emitted(tx, old(tx[..]), PadDataResp(sel, digital, setting, range, env))
  {
    var s := SensorOf(sel);
    tx[0] := 6;
    if digital {
      tx[1] := 0;
      tx[2] := BoolByte(env.digital[s]);
      tx[3] := 0;
      tx[4] := BoolByte(env.digital[s]);
    } else {
      var v := env.raw[s];
      tx[1] := Hi(v);
      tx[2] := Lo(v);
      if sel == PadSelLeft {
        v := env.outputLeftRight;
        v := if v > setting then 0 else DemandPercent(setting - v, range);
      } else if sel == PadSelRight {
        v := env.outputLeftRight;
        v := if v < setting then 0 else DemandPercent(v - setting, range);
      } else {
        v := env.outputFwdRev;
        v := if v < setting then 0 else DemandPercent(v - setting, range);
      }
      tx[3] := Hi(v);
      tx[4] := Lo(v);
    }
  }

  method BuildEnabledFeaturesResponsePacket(tx: array<byte>, store: Store)
    requires tx.Length == TxBuffLen && store.Valid() && tx != store.image
    modifies tx
    ensures Emitted(tx, old(tx[..]), EnabledFeaturesGetResp(store.State().image))
  {
    tx[0] := 5;
    tx[1] := store.GetByte(ItemEnabledFeatures);
    tx[2] := Wrap8(store.GetWord(ItemLongPressActTime) / 100);
    tx[3] := store.GetByte(ItemEnabledFeatures2);
  }

  method HandleEnabledFeaturesSet(rxd: array<byte>, store: Store)
    requires store.Valid() && rxd.Length == HhpInterface.BuffLen && rxd != store.image
    modifies store, store.image, store.needToSave
    ensures store.Valid() && store.State() == EnabledFeaturesSet(old(rxd[..]), old(store.State()))
    ensures store.bsp.mem[..] == old(store.bsp.mem[..])
  {
    var item1 := rxd[2];
    var item2 := rxd[4];
    store.SetByteItem(ItemEnabledFeatures, item1);
    store.SetWordItem(ItemLongPressActTime, (rxd[3] as int) * 100);
    store.SetByteItem(ItemEnabledFeatures2, item2);
  }

  method HandleModeOfOpSet(rxd: array<byte>, tx: array<byte>, store: Store, env: Env)
    requires Separate(rxd, tx, store) && env.WellFormed()
    modifies tx, store, store.image, store.needToSave
    ensures store.Valid()
    ensures var (resp, st') := ModeOfOpSet(old(rxd[..]), old(store.State()), env);
      Emitted(tx, old(tx[..]), resp) && store.State() == st'
    ensures store.bsp.mem[..] == old(store.bsp.mem[..])
  {
    tx[0] := 3;
    if FeatureEnabled(env, (rxd[2] as int) - 1) {
      store.SetByteItem(ItemCurrentActiveFeature, Wrap8((rxd[2] as int) - 1));
      tx[1] := Ack;
    } else {
      tx[1] := Nack;
    }
  }

  method BuildHeartBeatResponsePacket(rxd: array<byte>, tx: array<byte>, store: Store,
                                      flags: AppCommon.Flags, env: Env)
    requires Separate(rxd, tx, store)
    modifies tx
    ensures Emitted(tx, old(tx[..]), HeartbeatResp(rxd[..], store.State().image,
      flags.deviceIsActive, flags.deviceInCalibration, env))
  {
    tx[0] := 5;
    tx[1] := rxd[2];
    var currentFeature := store.GetByte(ItemCurrentActiveFeature);
    tx[2] := Wrap8((currentFeature as int) + 1);
    tx[3] := HeartbeatStatus(flags.DeviceActiveGet(), flags.CalibrationActiveGet(), env.neutralTestFail, env.switchStatus);
  }

  method BuildDacGetResponse(tx: array<byte>, store: Store)
    requires tx.Length == TxBuffLen && store.Valid() && tx != store.image
    modifies tx
    ensures Emitted(tx, old(tx[..]), NeutralDacGetResp(store.State().image))
  {
    ghost var before := tx[..];
    tx[0] := 8;
    var v := store.GetWord(ItemNeutralDacCounts);
    tx[1] := Hi(v);
    tx[2] := Lo(v);
    v := store.GetWord(ItemNeutralDacSetting);
    tx[3] := Hi(v);
    tx[4] := Lo(v);
    v := store.GetWord(ItemNeutralDacRange);
    tx[5] := Hi(v);
    tx[6] := Lo(v);
    ghost var resp := NeutralDacGetResp(store.State().image);
    assert tx[..7] == resp;
    EmittedFromParts(tx, before, resp);
  }

  /** A buffer whose first bytes are the response and whose other bytes are as they were has had it emitted. */
  lemma EmittedFromParts(tx: array<byte>, before: seq<byte>, resp: seq<byte>)
    requires |resp| <= tx.Length == |before| && tx[..|resp|] == resp
    requires forall k :: |resp| <= k < tx.Length ==> tx[k] == before[k]
    ensures Emitted(tx, before, resp)
  {
    assert tx[..] == tx[..|resp|] + tx[|resp|..];
    assert tx[|resp|..] == before[|resp|..];
  }

  method HandleDacSetCommand(rxd: array<byte>, tx: array<byte>, store: Store)
    requires Separate(rxd, tx, store)
    modifies tx, store, store.image, store.needToSave
    ensures store.Valid()
    ensures var (resp, st') := NeutralDacSet(old(rxd[..]), old(store.State()));
      Emitted(tx, old(tx[..]), resp) && store.State() == st'
    ensures store.bsp.mem[..] == old(store.bsp.mem[..])
  {
    var v := Join(rxd[2], rxd[3]);
    var counts := store.GetWord(ItemNeutralDacCounts);
    var range := store.GetWord(ItemNeutralDacRange);
    if DacInRange(v, counts, range) {
      store.SetWordItem(ItemNeutralDacSetting, v);
      tx[1] := Ack;
    } else {
      tx[1] := Nack;
    }
    tx[0] := 3;
  }

  method CreateGetOffsetResponse(tx: array<byte>, store: Store)
    requires tx.Length == TxBuffLen && store.Valid() && tx != store.image
    modifies tx
    ensures Emitted(tx, old(tx[..]), DriveOffsetGetResp(store.State().image))
  {
    tx[0] := 5;
    tx[1] := store.GetByte(ItemCenterPadMinDriveSpeed);
    tx[2] := store.GetByte(ItemLeftPadMinDriveSpeed);
    tx[3] := store.GetByte(ItemRightPadMinDriveSpeed);
  }

  method CreateSetOffsetResponse(rxd: array<byte>, tx: array<byte>, store: Store)
    requires Separate(rxd, tx, store)
    modifies tx, store, store.image, store.needToSave
    ensures store.Valid()
    ensures var (resp, st') := DriveOffsetSet(old(rxd[..]), old(store.State()));
      Emitted(tx, old(tx[..]), resp) && store.State() == st'
    ensures store.bsp.mem[..] == old(store.bsp.mem[..])
  {
    if rxd[2] <= MaxDriveOffset && rxd[3] <= MaxDriveOffset && rxd[4] <= MaxDriveOffset {
      store.SetByteItem(ItemCenterPadMinDriveSpeed, rxd[2]);
      store.SetByteItem(ItemLeftPadMinDriveSpeed, rxd[3]);
      store.SetByteItem(ItemRightPadMinDriveSpeed, rxd[4]);
      tx[1] := Ack;
    } else {
      tx[1] := Nack;
    }
    tx[0] := 3;
  }

  /** HA_HHP_CMD_SAVE_PARAMETERS: a forced flush of every item. */
  method SaveParameters(store: Store)
    requires store.Valid()
    modifies store, store.needToSave, store.bsp.mem
    ensures store.Valid()
    ensures (store.State(), store.bsp.mem[..]) == FlushState(old(store.State()), old(store.bsp.mem[..]), true)
  {
    store.Flush(true);
  }

  /** HA_HHP_CMD_RESET_PARAMETERS: the defaults assigned, then a forced flush. */
  method ResetParameters(store: Store)
    requires store.Valid()
    modifies store, store.image, store.needToSave, store.bsp.mem
    ensures store.Valid()
    ensures (store.State(), store.bsp.mem[..]) ==
      FlushState(old(store.State()).(image := Defaults(old(store.State()).image)), old(store.bsp.mem[..]), true)
  {
    store.SetDefaultValues();
    store.Flush(true);
  }

  /** The switch of ProcessRxdPacket, for a frame whose checksum is right: commands 0x30 to 0x38. */
  method ProcessCommand(rxd: array<byte>, tx: array<byte>, store: Store, flags: AppCommon.Flags, env: Env)
    requires Separate(rxd, tx, store) && env.WellFormed()
    modifies tx, store, store.image, store.needToSave, store.bsp.mem, flags
    ensures store.Valid() && flags.deviceIsActive == old(flags.deviceIsActive)
    ensures var h := Dispatch(old(rxd[..]), old(store.State()), old(store.bsp.mem[..]),
                              old(flags.deviceIsActive), old(flags.deviceInCalibration), env);
      Emitted(tx, old(tx[..]), h.resp) && store.State() == h.store && store.bsp.mem[..] == h.mem &&
      flags.deviceInCalibration == h.calibration
  {
    var cmd := rxd[1];
    if cmd == CmdPadAssignmentGet {
      HandlePadAssignmentGet(rxd, tx, store);
    } else if cmd == CmdPadAssignmentSet {
      HandlePadAssignmentSet(rxd, store);
      BuildAckPacket(tx);
    } else if cmd == CmdCalRangeGet {
      HandlePadCalibrationDataGet(rxd, tx, store);
    } else if cmd == CmdCalRangeSet {
      HandlePadCalibrationDataSet(rxd, store);
      BuildAckPacket(tx);
    } else if cmd == CmdCalibrationStart {
      flags.CalibrationActiveSet(true);
      BuildAckPacket(tx);
    } else if cmd == CmdCalibrationStop {
      flags.CalibrationActiveSet(false);
      BuildAckPacket(tx);
    } else if cmd == CmdPadDataGet {
      HandlePadDataGet(rxd, tx, store, env);
    } else if cmd == CmdVersionGet {
      BuildVersionsResponsePacket(tx);
    } else if cmd == CmdEnabledFeaturesGet {
      BuildEnabledFeaturesResponsePacket(tx, store);
    } else {
      ProcessLaterCommand(rxd, tx, store, flags, env);
    }
  }

  /** HA_HHP_CMD_ENABLED_FEATURES_SET: the features stored, then an ACK. */
  method EnabledFeaturesSetCommand(rxd: array<byte>, tx: array<byte>, store: Store)
    requires Separate(rxd, tx, store)
    modifies tx, store, store.image, store.needToSave
    ensures store.Valid()
    ensures Emitted(tx, old(tx[..]), AckResp()) && store.State() == EnabledFeaturesSet(old(rxd[..]), old(store.State()))
    ensures store.bsp.mem[..] == old(store.bsp.mem[..])
  {
    HandleEnabledFeaturesSet(rxd, store);
    BuildAckPacket(tx);
  }

  /** The rest of the switch of ProcessRxdPacket: commands from 0x39 on, and the default case. */
  method ProcessLaterCommand(rxd: array<byte>, tx: array<byte>, store: Store, flags: AppCommon.Flags, env: Env)
    requires Separate(rxd, tx, store) && env.WellFormed()
    requires !(CmdPadAssignmentGet <= rxd[1] <= CmdEnabledFeaturesGet)
    modifies tx, store, store.image, store.needToSave, store.bsp.mem, flags
    ensures store.Valid() && flags.deviceIsActive == old(flags.deviceIsActive)
    ensures var h := DispatchLater(old(rxd[..]), old(store.State()), old(store.bsp.mem[..]),
                              old(flags.deviceIsActive), old(flags.deviceInCalibration), env);
      Emitted(tx, old(tx[..]), h.resp) && store.State() == h.store && store.bsp.mem[..] == h.mem &&
      flags.deviceInCalibration == h.calibration
  {
    var cmd := rxd[1];
    if cmd == CmdEnabledFeaturesSet {
      EnabledFeaturesSetCommand(rxd, tx, store);
    } else if cmd == CmdModeOfOperationSet {
      HandleModeOfOpSet(rxd, tx, store, env);
    } else {
      ProcessStatusCommand(rxd, tx, store, flags, env);
    }
  }

  /** The middle of the switch of ProcessRxdPacket: the heartbeat and the neutral-DAC commands, then the rest. */
  method ProcessStatusCommand(rxd: array<byte>, tx: array<byte>, store: Store, flags: AppCommon.Flags, env: Env)
    requires Separate(rxd, tx, store) && env.WellFormed()
    requires !(CmdPadAssignmentGet <= rxd[1] <= CmdModeOfOperationSet)
    modifies tx, store, store.image, store.needToSave, store.bsp.mem
    ensures store.Valid()
    ensures var h := DispatchStatus(old(rxd[..]), old(store.State()), old(store.bsp.mem[..]),
                              flags.deviceIsActive, flags.deviceInCalibration, env);
      Emitted(tx, old(tx[..]), h.resp) && store.State() == h.store && store.bsp.mem[..] == h.mem &&
      flags.deviceInCalibration == h.calibration
  {
    var cmd := rxd[1];
    if cmd == CmdHeartbeat {
      BuildHeartBeatResponsePacket(rxd, tx, store, flags, env);
    } else if cmd == CmdNeutralDacGet {
      BuildDacGetResponse(tx, store);
    } else if cmd == CmdNeutralDacSet {
      HandleDacSetCommand(rxd, tx, store);
    } else {
      ProcessParameterCommand(rxd, tx, store, flags, env);
    }
  }

  /** The end of the switch of ProcessRxdPacket: commands from 0x3E on, and the default case. */
  method ProcessParameterCommand(rxd: array<byte>, tx: array<byte>, store: Store, flags: AppCommon.Flags, env: Env)
    requires Separate(rxd, tx, store) && env.WellFormed()
    requires !(CmdPadAssignmentGet <= rxd[1] <= CmdNeutralDacSet)
    modifies tx, store, store.image, store.needToSave, store.bsp.mem
    ensures store.Valid()
    ensures var h := DispatchParameter(old(rxd[..]), old(store.State()), old(store.bsp.mem[..]),
                              flags.deviceIsActive, flags.deviceInCalibration, env);
      Emitted(tx, old(tx[..]), h.resp) && store.State() == h.store && store.bsp.mem[..] == h.mem &&
      flags.deviceInCalibration == h.calibration
  {
    var cmd := rxd[1];
    if cmd == CmdSaveParameters {
      SaveParameters(store);
      BuildAckPacket(tx);
    } else if cmd == CmdResetParameters {
      ResetParameters(store);
      BuildAckPacket(tx);
    } else if cmd == CmdDriveOffsetGet {
      CreateGetOffsetResponse(tx, store);
    } else if cmd == CmdDriveOffsetSet {
      CreateSetOffsetResponse(rxd, tx, store);
    } else {
      BuildNackPacket(tx);
    }
  }

  /**
   * ProcessRxdPacket: NACK a frame with a wrong checksum (or a length byte of
   * 0), dispatch any other, and end the response with its checksum.
   */
  method ProcessRxdPacket(rxd: array<byte>, tx: array<byte>, store: Store, flags: AppCommon.Flags, env: Env)
    requires Separate(rxd, tx, store) && rxd[0] <= HhpInterface.BuffLen && env.WellFormed()
    modifies tx, store, store.image, store.needToSave, store.bsp.mem, flags
    ensures store.Valid() && flags.deviceIsActive == old(flags.deviceIsActive)
    ensures Reply(tx[..], store.State(), store.bsp.mem[..], flags.deviceInCalibration) ==
      Process(old(rxd[..]), old(tx[..]), old(store.State()), old(store.bsp.mem[..]),
              old(flags.deviceIsActive), old(flags.deviceInCalibration), env)
  {
    ghost var tx0 := tx[..];
    ghost var h := Handle(rxd[..], store.State(), store.bsp.mem[..], flags.deviceIsActive, flags.deviceInCalibration, env);
    HandleFrame(rxd, tx, store, flags, env);
    AppendChecksum(tx, tx0, h.resp);
  }

  /** The checksum test and the switch of ProcessRxdPacket: the response written at the start of the transmit buffer. */
  method HandleFrame(rxd: array<byte>, tx: array<byte>, store: Store, flags: AppCommon.Flags, env: Env)
    requires Separate(rxd, tx, store) && rxd[0] <= HhpInterface.BuffLen && env.WellFormed()
    modifies tx, store, store.image, store.needToSave, store.bsp.mem, flags
    ensures store.Valid() && flags.deviceIsActive == old(flags.deviceIsActive)
    ensures var h := Handle(old(rxd[..]), old(store.State()), old(store.bsp.mem[..]),
                            old(flags.deviceIsActive), old(flags.deviceInCalibration), env);
      Emitted(tx, old(tx[..]), h.resp) && store.State() == h.store && store.bsp.mem[..] == h.mem &&
      flags.deviceInCalibration == h.calibration
  {
    var checksumOk := false;
    if rxd[0] != 0 {
      var n := rxd[0] - 1;
      var c := CalcChecksum(rxd, n);
      checksumOk := c == rxd[n];
    }
    if checksumOk {
      ProcessCommand(rxd, tx, store, flags, env);
    } else {
      BuildNackPacket(tx);
    }
  }

  /** The end of ProcessRxdPacket: the checksum of the response's bytes written after them. */
  method AppendChecksum(tx: array<byte>, ghost before: seq<byte>, ghost resp: seq<byte>)
    requires tx.Length == TxBuffLen && WellFramed(resp) && Emitted(tx, before, resp)
    modifies tx
    ensures tx[..] == Emit(before, resp)
  {
    assert tx[..|resp|] == resp;
    ghost var t1 := tx[..];
    var len := tx[0] - 1;
    var cks := CalcChecksum(tx, len);
    tx[len] := cks;
    assert tx[..] == t1[len := cks];
    ChecksumCompletesEmit(t1, before, resp);
  }

  /** Writing the checksum after an emitted response gives the buffer Emit describes. */
  lemma ChecksumCompletesEmit(t: seq<byte>, tx: seq<byte>, resp: seq<byte>)
    requires |tx| == TxBuffLen && WellFramed(resp) && t == resp + tx[|resp|..]
    ensures t[|resp| := Sum(resp) % 0x100] == Emit(tx, resp)
  {
    var e := Emit(tx, resp);
    forall k | 0 <= k < |t|
      ensures t[|resp| := Sum(resp) % 0x100][k] == e[k]
    {
      if k < |resp| {
        assert t[k] == resp[k] == e[k];
      } else if k > |resp| {
        assert t[k] == tx[k] == e[k];
      }
    }
  }

  /**
   * One pass of HaHhpInterfaceHandlingTask: when the master asserts RTS and
   * the line is ready, a frame is received from `input`; when it is accepted
   * it is processed and the first tx[0] bytes of the transmit buffer are sent.
   */
  method HandlingStep(masterRts: bool, readyToReceive: bool, input: seq<Option<byte>>,
                      rxd: array<byte>, tx: array<byte>, store: Store, flags: AppCommon.Flags, env: Env)
    returns (transmitted: Option<seq<byte>>)
    requires Separate(rxd, tx, store) && env.WellFormed()
    modifies rxd, tx, store, store.image, store.needToSave, store.bsp.mem, flags
    ensures store.Valid()
    ensures transmitted.Some? <==>
      masterRts && readyToReceive && HhpInterface.RxPacket(old(rxd[..]), input).ok
    ensures transmitted.Some? ==>
      var r := Process(HhpInterface.RxPacket(old(rxd[..]), input).buffer, old(tx[..]), old(store.State()),
                       old(store.bsp.mem[..]), old(flags.deviceIsActive), old(flags.deviceInCalibration), env);
      transmitted.value == r.tx[..r.tx[0]] &&
      store.State() == r.store && store.bsp.mem[..] == r.mem && flags.deviceInCalibration == r.calibration
    ensures transmitted.None? ==>
      store.State() == old(store.State()) && store.bsp.mem[..] == old(store.bsp.mem[..]) &&
      flags.deviceInCalibration == old(flags.deviceInCalibration) && tx[..] == old(tx[..])
    ensures flags.deviceIsActive == old(flags.deviceIsActive)
  {
    transmitted := None;
    if masterRts && readyToReceive {
      ghost var buf0 := rxd[..];
      var ok, numReads := HhpInterface.RxPacketInto(rxd, input);
      if ok {
        HhpInterface.RxFillsInOrder(buf0, input);
        ghost var rx1, tx1, st1, mem1 := rxd[..], tx[..], store.State(), store.bsp.mem[..];
        ProcessRxdPacket(rxd, tx, store, flags, env);
        ResponseHasChecksum(rx1, tx1, st1, mem1, old(flags.deviceIsActive), old(flags.deviceInCalibration), env);
        transmitted := Some(tx[..tx[0]]);
      }
    }
  }

  /** Every packet the HHP task sends is a well-framed response: its checksum is its last byte. */
  lemma TransmittedPacketsChecksummed(rx: seq<byte>, tx: seq<byte>, st: StoreState, mem: seq<byte>,
                                      active: bool, calibration: bool, env: Env)
    requires |rx| == HhpInterface.BuffLen && rx[0] <= HhpInterface.BuffLen && |tx| == TxBuffLen
    requires st.WellFormed() && |mem| == SizeOfEeprom && env.WellFormed()
    ensures var r := Process(rx, tx, st, mem, active, calibration, env); var pkt := r.tx[..r.tx[0]];
      3 <= |pkt| <= TxBuffLen && pkt[0] == |pkt| && pkt[|pkt| - 1] == Checksum(pkt, |pkt| - 1)
  {
    ResponseHasChecksum(rx, tx, st, mem, active, calibration, env);
    var r := Process(rx, tx, st, mem, active, calibration, env);
    assert r.tx[..r.tx[0]][..r.tx[0] - 1] == r.tx[..r.tx[0] - 1];
  }
}
