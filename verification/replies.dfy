/** Interpreting the device's replies: the read half of razer_get_battery_level,
    razer_is_charging and razer_get_serial. The inbound transfer itself is not
    modelled; a reply is the length the transfer reported together with the
    90-byte receive buffer (zeroed before the transfer). */
module Replies {
  import opened Report
  import Commands

  /** Start marker of a reply the device accepted. */
  const ReplyMarker: byte := 0x02

  /** Value the numeric queries return when the reply is rejected. */
  const NoValue: int := -1

  /** Bytes of serial number copied out of a reply. */
  const SerialLen: nat := 20

  /** Size of the caller's serial buffer in razer_attr_read_get_serial. */
  const SerialBufferLen: nat := 100

  /** Why a reply was discarded; the driver logs the two cases with different
      messages. */
  datatype Fault = WrongLength(len: int) | WrongReport

  datatype Result<T> = Ok(value: T) | Err(fault: Fault)

  /** The check razer_get_battery_level and razer_is_charging apply: a full
      report, marked as a reply, echoing the power group, the command asked
      for and sub-command 0x00. The id byte and the count are not looked at. */
  function StatusReply(len: int, reply: Frame, command: byte): (r: Result<byte>)
    ensures r.Ok? <==>
      && len == ReportLen
      && reply[StartMarker] == ReplyMarker
      && reply[Group] == Commands.PowerGroup
      && reply[Command] == command
      && reply[SubCommand] == 0x00
    ensures r.Ok? ==> r.value == reply[Params]
    ensures len != ReportLen ==> r == Err(WrongLength(len))
    ensures len == ReportLen && r.Err? ==> r == Err(WrongReport)
  {
    if len != ReportLen then Err(WrongLength(len))
    else if reply[StartMarker] == ReplyMarker && reply[Group] == Commands.PowerGroup
         && reply[Command] == command && reply[SubCommand] == 0x00
    then Ok(reply[Params])
    else Err(WrongReport)
  }

  /** The value a numeric query returns: the reply's first parameter, or -1. */
  function ValueOrNone(r: Result<byte>): (v: int)
    ensures -1 <= v < 256
    ensures v == NoValue <==> r.Err?
    ensures r.Ok? ==> v == r.value as int
  {
    match r
    case Ok(b) => b as int
    case Err(_) => NoValue
  }

  /** razer_get_battery_level: the level (0 to 255) when the reply answers
      command 0x80, otherwise -1. No accepted reply can be confused with -1. */
  function BatteryLevel(len: int, reply: Frame): (level: int)
    ensures -1 <= level < 256
    ensures level != NoValue <==>
      && len == ReportLen
      && reply[StartMarker] == ReplyMarker
      && reply[Group] == Commands.PowerGroup
      && reply[Command] == Commands.BatteryCommand
      && reply[SubCommand] == 0x00
    ensures level != NoValue ==> level == reply[Params] as int
  {
    ValueOrNone(StatusReply(len, reply, Commands.BatteryCommand))
  }

  /** razer_is_charging: the charging flag when the reply answers command
      0x84, otherwise -1. */
  function ChargingStatus(len: int, reply: Frame): (charging: int)
    ensures -1 <= charging < 256
    ensures charging != NoValue <==>
      && len == ReportLen
      && reply[StartMarker] == ReplyMarker
      && reply[Group] == Commands.PowerGroup
      && reply[Command] == Commands.ChargingStatusCommand
      && reply[SubCommand] == 0x00
    ensures charging != NoValue ==> charging == reply[Params] as int
  {
    ValueOrNone(StatusReply(len, reply, Commands.ChargingStatusCommand))
  }

  /** A battery reply is never taken for a charging reply, nor the reverse. */
  lemma StatusRepliesDisjoint(len: int, reply: Frame)
    ensures BatteryLevel(len, reply) == NoValue || ChargingStatus(len, reply) == NoValue
  {
  }

  /** The check razer_get_serial applies: a full report, marked as a reply,
      group 0x00 and command 0x82. Unlike the status replies, the sub-command
      is not checked: it is the first serial byte. */
  predicate SerialAccepted(len: int, reply: Frame)
  {
    && len == ReportLen
    && reply[StartMarker] == ReplyMarker
    && reply[Group] == Commands.SerialGroup
    && reply[Command] == Commands.SerialCommand
  }

  /** razer_get_serial's copy into the caller's buffer: on an accepted reply,
      the 20 bytes starting at offset 5 overwrite the buffer's first 20 bytes;
      otherwise the buffer is left as it was. */
  function SerialInto(len: int, reply: Frame, buffer: seq<byte>): (out: seq<byte>)
    requires |buffer| >= SerialLen
    ensures |out| == |buffer|
    ensures out[SerialLen..] == buffer[SerialLen..]
    ensures SerialAccepted(len, reply) ==>
      forall i :: 0 <= i < SerialLen ==> out[i] == reply[SubCommand + i]
    ensures !SerialAccepted(len, reply) ==> out == buffer
  {
    if SerialAccepted(len, reply) then reply[SubCommand..SubCommand + SerialLen] + buffer[SerialLen..]
    else buffer
  }

  /** The bytes `%s` prints from a buffer: everything before the first zero. */
  function CString(s: seq<byte>): (text: seq<byte>)
    ensures |text| <= |s| && text == s[..|text|]
    ensures forall i :: 0 <= i < |text| ==> text[i] != 0
    ensures |text| < |s| ==> s[|text|] == 0
  {
    if |s| == 0 || s[0] == 0 then [] else [s[0]] + CString(s[1..])
  }

  /** A zero byte at index `k` ends the text at or before `k`. */
  lemma CStringStopsAtZero(s: seq<byte>, k: nat)
    requires k < |s| && s[k] == 0
    ensures |CString(s)| <= k
  {
  }

  /** What reading the get_serial attribute yields (before its newline): the
      caller's buffer starts out empty, so a rejected reply reads as the empty
      string; an accepted one reads as the serial bytes up to the first zero,
      at most 20 of them. */
  function SerialString(len: int, reply: Frame): (text: seq<byte>)
    ensures |text| <= SerialLen
    ensures forall i :: 0 <= i < |text| ==> text[i] != 0
    ensures !SerialAccepted(len, reply) ==> text == []
    ensures SerialAccepted(len, reply) ==>
      && text == reply[SubCommand..SubCommand + |text|]
      && (|text| < SerialLen ==> reply[SubCommand + |text|] == 0)
  {
    var buffer := SerialInto(len, reply, Zeros(SerialBufferLen));
    CStringStopsAtZero(buffer, SerialLen);
    CString(buffer)
  }
}
