/** The byte-count decoding of the `razer_attr_write_*` handlers: each is a
    function from what was written to the reports the handler sends, in
    order. Handlers that take raw bytes see them as `buf`, whose length is the
    write's `count`. Handlers that take a number see the value the decimal
    parser returned (an `unsigned long`); the parsing itself is not modelled,
    the narrowing casts applied to its result are. Every handler returns
    `count`, which is not modelled. */
module Attributes {
  import opened Report
  import opened Commands

  /** The `unsigned long` the decimal parser returns (64-bit kernel). */
  type ulong = bv64

  /** `(unsigned char)` of the parsed value, also when it passes through an
      `int` first: the low 8 bits. */
  function ToUChar(v: ulong): byte
  {
    (v & 0xFF) as byte
  }

  /** `unsigned short x = <parsed value>`: the low 16 bits. */
  function ToUShort(v: ulong): ushort
  {
    (v & 0xFFFF) as ushort
  }

  /** `int temp = <parsed value>`: the bit pattern of the low 32 bits. */
  function ToIntBits(v: ulong): bv32
  {
    (v & 0xFFFF_FFFF) as bv32
  }

  /** razer_attr_write_mode_wave: only a value whose `int` is 1 or 2 is sent,
      as the direction byte; anything else sends nothing. */
  function WaveWrite(parsed: ulong): (sent: seq<Frame>)
    ensures |sent| <= 1
    ensures |sent| == 1 <==> ToIntBits(parsed) == 1 || ToIntBits(parsed) == 2
    ensures |sent| == 1 ==>
      && Shaped(sent[0], 0x02, EffectsGroup, EffectCommand, 1)
      && sent[0][SubCommand] == WaveEffect
      && sent[0][Params] as bv32 == ToIntBits(parsed)
  {
    var temp := ToIntBits(parsed);
    if temp == 1 || temp == 2 then [WaveFrame((temp & 0xFF) as byte)] else []
  }

  /** razer_attr_write_mode_static: exactly three bytes are the colour;
      any other count sends nothing. */
  function StaticWrite(buf: seq<byte>): (sent: seq<Frame>)
    ensures |buf| != 3 ==> sent == []
    ensures |buf| == 3 ==>
      && |sent| == 1
      && Shaped(sent[0], 0x04, EffectsGroup, EffectCommand, 3)
      && sent[0][SubCommand] == StaticEffect
      && sent[0][Params..Params + 3] == buf
  {
    if |buf| == 3 then [StaticFrame(Rgb(buf[0], buf[1], buf[2]))] else []
  }

  /** razer_attr_write_mode_spectrum: any write, whatever its bytes. */
  function SpectrumWrite(buf: seq<byte>): (sent: seq<Frame>)
    ensures |sent| == 1
    ensures Shaped(sent[0], 0x02, EffectsGroup, EffectCommand, 0)
    ensures sent[0][SubCommand] == SpectrumEffect
  {
    [SpectrumFrame()]
  }

  /** razer_attr_write_mode_reactive: exactly four bytes, the speed then the
      colour; any other count sends nothing. */
  function ReactiveWrite(buf: seq<byte>): (sent: seq<Frame>)
    ensures |buf| != 4 ==> sent == []
    ensures |buf| == 4 ==>
      && |sent| == 1
      && Shaped(sent[0], 0x05, EffectsGroup, EffectCommand, 4)
      && sent[0][SubCommand] == ReactiveEffect
      && sent[0][Params] == ReactiveSpeed(buf[0])
      && sent[0][Params + 1..Params + 4] == buf[1..]
  {
    if |buf| == 4 then [ReactiveFrame(Rgb(buf[1], buf[2], buf[3]), buf[0])] else []
  }

  /** The breathing type a write of `count` bytes selects: 3 bytes one colour,
      6 bytes two colours, anything else random. */
  function BreathKind(count: nat): (kind: byte)
    ensures kind == 1 <==> count == 3
    ensures kind == 2 <==> count == 6
    ensures kind == 1 || kind == 2 || kind == 3
  {
    if count == 3 then 0x01 else if count == 6 then 0x02 else 0x03
  }

  /** The two colours razer_attr_write_mode_breath passes on: the written
      bytes for counts 3 and 6, and the zeroed `alt_buf` colours otherwise. */
  function BreathColours(buf: seq<byte>): (cs: (Rgb, Rgb))
    ensures |buf| == 3 ==> Channels(cs.0) == buf && Channels(cs.1) == Zeros(3)
    ensures |buf| == 6 ==> Channels(cs.0) + Channels(cs.1) == buf
    ensures |buf| != 3 && |buf| != 6 ==> Channels(cs.0) == Zeros(3) && Channels(cs.1) == Zeros(3)
  {
    var none := Rgb(0, 0, 0);
    if |buf| == 3 then (Rgb(buf[0], buf[1], buf[2]), none)
    else if |buf| == 6 then (Rgb(buf[0], buf[1], buf[2]), Rgb(buf[3], buf[4], buf[5]))
    else (none, none)
  }

  /** razer_attr_write_mode_breath: every write sends one breath report; the
      colour bytes it carries are exactly the bytes written when 3 or 6 were
      written, and zero otherwise. */
  function BreathWrite(buf: seq<byte>): (sent: seq<Frame>)
    ensures |sent| == 1
    ensures Shaped(sent[0], 0x08, EffectsGroup, EffectCommand, 7)
    ensures sent[0][SubCommand] == BreathEffect
    ensures sent[0][Params] == BreathKind(|buf|)
    ensures |buf| == 3 ==> sent[0][Params + 1..Params + 7] == buf + Zeros(3)
    ensures |buf| == 6 ==> sent[0][Params + 1..Params + 7] == buf
    ensures |buf| != 3 && |buf| != 6 ==> sent[0][Params + 1..Params + 7] == Zeros(6)
  {
    var cs := BreathColours(buf);
    var f := BreathFrame(BreathKind(|buf|), cs.0, cs.1);
    SliceJoin(f, Params + 1, Params + 4, Params + 7);
    ZerosAppend(3, 3);
    [f]
  }

  /** razer_attr_write_set_wireless_brightness: the parsed value modulo 256. */
  function BrightnessWrite(parsed: ulong): (sent: seq<Frame>)
    ensures |sent| == 1
    ensures Shaped(sent[0], 0x01, PowerGroup, BrightnessCommand, 0)
    ensures sent[0][SubCommand] as ulong == parsed % 256
  {
    [BrightnessFrame(ToUChar(parsed))]
  }

  /** razer_attr_write_set_low_battery_threshold: the parsed value is narrowed
      to a byte first and capped at 0x3F after. */
  function ThresholdWrite(parsed: ulong): (sent: seq<Frame>)
    ensures |sent| == 1
    ensures Shaped(sent[0], 0x01, PowerGroup, ThresholdCommand, 0)
    ensures parsed % 256 <= 0x3F ==> sent[0][SubCommand] as ulong == parsed % 256
    ensures parsed % 256 > 0x3F ==> sent[0][SubCommand] == MaxThreshold
  {
    [ThresholdFrame(ToUChar(parsed))]
  }

  /** razer_attr_write_set_idle_time: the parsed value is narrowed to 16 bits
      first and capped at 900 after. */
  function IdleTimeWrite(parsed: ulong): (sent: seq<Frame>)
    ensures |sent| == 1
    ensures Shaped(sent[0], 0x02, PowerGroup, IdleTimeCommand, 1)
    ensures IdleTimeOf(sent[0]) as ulong == if parsed % 0x1_0000 <= 900 then parsed % 0x1_0000 else 900
  {
    [IdleTimeFrame(ToUShort(parsed))]
  }

  /** Because narrowing comes before capping, 256 sets the threshold to 0 and
      65536 sets the idle time to 0, not to their caps. */
  lemma NarrowingPrecedesCaps()
    ensures ThresholdWrite(0x100)[0][SubCommand] == 0
    ensures IdleTimeOf(IdleTimeWrite(0x1_0000)[0]) == 0
  {
  }

  /** A `char` of the written buffer promoted to `int`: sign-extended. */
  function SignExtend(c: byte): bv32
  {
    if c < 0x80 then c as bv32 else (c as bv32) | 0xFFFF_FF00
  }

  /** `(buf[i] << 8) | (buf[i + 1] & 0xFF)` stored into an `unsigned short`:
      despite both chars being sign-extended, the result is the two bytes read
      big-endian. */
  function CharPairToUShort(hi: byte, lo: byte): (v: ushort)
    ensures v == BigEndian(hi, lo)
  {
    var wide: bv32 := (SignExtend(hi) << 8) | (SignExtend(lo) & 0xFF);
    (wide & 0xFFFF) as ushort
  }

  /** With an unsigned `char` the expression gives the same value. */
  lemma CharSignednessIrrelevant(hi: byte, lo: byte)
    ensures ((((hi as bv32) << 8) | ((lo as bv32) & 0xFF)) & 0xFFFF) as ushort == CharPairToUShort(hi, lo)
  {
  }

  /** The resolution razer_attr_write_set_mouse_dpi asks for: two bytes set
      both axes, four bytes set x then y, any other count 1500 by 1500. */
  function DpiArgs(buf: seq<byte>): (xy: (ushort, ushort))
    ensures |buf| == 2 ==> xy == (BigEndian(buf[0], buf[1]), BigEndian(buf[0], buf[1]))
    ensures |buf| == 4 ==> xy == (BigEndian(buf[0], buf[1]), BigEndian(buf[2], buf[3]))
    ensures |buf| != 2 && |buf| != 4 ==> xy == (1500, 1500)
  {
    if |buf| == 2 then
      var x := CharPairToUShort(buf[0], buf[1]);
      (x, x)
    else if |buf| == 4 then
      (CharPairToUShort(buf[0], buf[1]), CharPairToUShort(buf[2], buf[3]))
    else
      (1500, 1500)
  }

  /** razer_attr_write_set_mouse_dpi: one report carrying the requested
      resolution, each axis capped at 16000. */
  function DpiWrite(buf: seq<byte>): (sent: seq<Frame>)
    ensures |sent| == 1
    ensures Shaped(sent[0], 0x07, DpiGroup, DpiCommand, 6)
    ensures sent[0][SubCommand] == 0x00
    ensures DpiOf(sent[0]) == (Min16(DpiArgs(buf).0, MaxDpi), Min16(DpiArgs(buf).1, MaxDpi))
    ensures sent[0][Params + 4] == 0x00 && sent[0][Params + 5] == 0x00
  {
    var (x, y) := DpiArgs(buf);
    [DpiFrame(x, y)]
  }

  /** razer_attr_write_set_charging_effect: a single byte is the charge type,
      any other count asks for type 1. */
  function ChargingEffectWrite(buf: seq<byte>): (sent: seq<Frame>)
    ensures |sent| == 1
    ensures Shaped(sent[0], 0x01, EffectsGroup, ChargingEffectCommand, 0)
    ensures |buf| == 1 && buf[0] <= 1 ==> sent[0][SubCommand] == buf[0]
    ensures !(|buf| == 1 && buf[0] <= 1) ==> sent[0][SubCommand] == 0x01
  {
    [ChargingEffectFrame(if |buf| == 1 then buf[0] else 0x01)]
  }

  /** razer_attr_write_set_charging_colour: three bytes are the colour, any
      other count asks for red (FF0000); either way two reports go out, the
      charging-effect switch first. */
  function ChargingColourWrite(buf: seq<byte>): (sent: seq<Frame>)
    ensures |sent| == 2
    ensures Shaped(sent[0], 0x01, EffectsGroup, ChargingEffectCommand, 0)
    ensures sent[0][SubCommand] == 0x01
    ensures Shaped(sent[1], 0x05, EffectsGroup, ChargingColourCommand, 4)
    ensures sent[1][SubCommand] == 0x00 && sent[1][Params] == 0x03
    ensures sent[1][Params + 1..Params + 4] == if |buf| == 3 then buf else [0xFF, 0x00, 0x00]
  {
    var colour := if |buf| == 3 then Rgb(buf[0], buf[1], buf[2]) else Rgb(0xFF, 0x00, 0x00);
    var fs := ChargingColourFrames(colour);
    assert fs[1][Params + 1..Params + 4] == fs[1][Params..Params + 4][1..];
    fs
  }
}
