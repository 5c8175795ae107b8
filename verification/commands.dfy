/** The request reports the driver sends: one encoder per `razer_set_*`
    function and the priming requests of the three queries, each with the
    driver's clamping and defaulting of its arguments. */
module Commands {
  import opened Report

  /** The driver's `unsigned short`. */
  type ushort = bv16

  /** `struct razer_rgb`: three colour channels, copied by value. */
  datatype Rgb = Rgb(r: byte, g: byte, b: byte)

  /** The three parameter bytes a colour occupies, red first. */
  function Channels(c: Rgb): seq<byte>
  {
    [c.r, c.g, c.b]
  }

  // Groups (the `reserved2` byte).
  const SerialGroup: byte := 0x00
  const EffectsGroup: byte := 0x03
  const DpiGroup: byte := 0x04
  const PowerGroup: byte := 0x07

  // Effect command and its sub-commands.
  const EffectCommand: byte := 0x0A
  const WaveEffect: byte := 0x01
  const ReactiveEffect: byte := 0x02
  const BreathEffect: byte := 0x03
  const SpectrumEffect: byte := 0x04
  const StaticEffect: byte := 0x06

  // Power-management commands.
  const ThresholdCommand: byte := 0x01
  const BrightnessCommand: byte := 0x02
  const IdleTimeCommand: byte := 0x03
  const BatteryCommand: byte := 0x80
  const SerialCommand: byte := 0x82
  const ChargingStatusCommand: byte := 0x84

  // Other commands.
  const DpiCommand: byte := 0x05
  const ChargingColourCommand: byte := 0x01
  const ChargingEffectCommand: byte := 0x10

  // Caps and defaults.
  const MaxThreshold: byte := 0x3F
  const MaxIdleTime: ushort := 900
  const MaxDpi: ushort := 16000
  const DefaultReactiveSpeed: byte := 3

  /** The 16-bit value whose big-endian bytes are `hi` and `lo`. */
  function BigEndian(hi: byte, lo: byte): ushort
  {
    ((hi as ushort) << 8) | (lo as ushort)
  }

  /** `(v >> 8) & 0x00FF` and `v & 0x00FF`: the high and the low byte of `v`. */
  function SplitBigEndian(v: ushort): (b: (byte, byte))
    ensures BigEndian(b.0, b.1) == v
  {
    (((v >> 8) & 0xFF) as byte, (v & 0xFF) as byte)
  }

  /** Splitting undoes joining. */
  lemma JoinThenSplit(hi: byte, lo: byte)
    ensures SplitBigEndian(BigEndian(hi, lo)) == (hi, lo)
  {
  }

  function Min16(a: ushort, b: ushort): ushort
  {
    if a <= b then a else b
  }

  // ---------------------------------------------------------------------
  // Substitution of out-of-range arguments.

  /** razer_set_low_battery_threshold: a threshold of 0x40 or more becomes 0x3F
      (25%); lower thresholds pass unchanged. */
  function CapThreshold(t: byte): (c: byte)
    ensures c <= MaxThreshold
    ensures c == t || (t > MaxThreshold && c == MaxThreshold)
  {
    if t >= 0x40 then MaxThreshold else t
  }

  /** razer_set_idle_time: at most 900 seconds. */
  function CapIdleTime(t: ushort): (c: ushort)
    ensures c == Min16(t, MaxIdleTime)
  {
    if t > MaxIdleTime then MaxIdleTime else t
  }

  /** razer_set_mouse_dpi: at most 16000 per axis. */
  function CapDpi(v: ushort): (c: ushort)
    ensures c == Min16(v, MaxDpi)
  {
    if v > MaxDpi then MaxDpi else v
  }

  /** razer_set_charging_effect: any type other than 0 and 1 becomes 1 (the
      `charge_type < 0` half of the guard cannot hold for an unsigned char). */
  function ChargeType(t: byte): (c: byte)
    ensures c == 0 || c == 1
    ensures t <= 1 ==> c == t
    ensures t > 1 ==> c == 1
  {
    if t > 1 then 0x01 else t
  }

  /** razer_set_reactive_mode: a speed above 4 becomes 3; 0 through 4 pass
      unchanged (the `speed < 0` half of the guard cannot hold). */
  function ReactiveSpeed(speed: byte): (s: byte)
    ensures s <= 4
    ensures speed <= 4 ==> s == speed
    ensures speed > 4 ==> s == DefaultReactiveSpeed
  {
    if speed > 4 then DefaultReactiveSpeed else speed
  }

  /** Every substitution leaves a value it produced as it is. */
  lemma SubstitutionsIdempotent(b: byte, u: ushort)
    ensures CapThreshold(CapThreshold(b)) == CapThreshold(b)
    ensures ChargeType(ChargeType(b)) == ChargeType(b)
    ensures ReactiveSpeed(ReactiveSpeed(b)) == ReactiveSpeed(b)
    ensures CapIdleTime(CapIdleTime(u)) == CapIdleTime(u)
    ensures CapDpi(CapDpi(u)) == CapDpi(u)
  {
  }

  // ---------------------------------------------------------------------
  // Reading values back out of a request.

  /** The idle time a request carries: sub-command is the high byte, the first
      parameter the low byte. */
  function IdleTimeOf(f: Frame): ushort
  {
    BigEndian(f[SubCommand], f[Params])
  }

  /** The (x, y) resolution a request carries, each big-endian. */
  function DpiOf(f: Frame): (ushort, ushort)
  {
    (BigEndian(f[Params], f[Params + 1]), BigEndian(f[Params + 2], f[Params + 3]))
  }

  // ---------------------------------------------------------------------
  // Query requests (the write half of razer_get_serial,
  // razer_get_battery_level and razer_is_charging).

  function SerialRequest(): (f: Frame)
    ensures Shaped(f, 0x16, SerialGroup, SerialCommand, 0)
    ensures f[SubCommand] == 0x00
  {
    Build(0x16, SerialGroup, SerialCommand, 0x00, [0x00])
  }

  function BatteryRequest(): (f: Frame)
    ensures Shaped(f, 0x02, PowerGroup, BatteryCommand, 0)
    ensures f[SubCommand] == 0x00
  {
    Build(0x02, PowerGroup, BatteryCommand, 0x00, [0x00])
  }

  function ChargingStatusRequest(): (f: Frame)
    ensures Shaped(f, 0x02, PowerGroup, ChargingStatusCommand, 0)
    ensures f[SubCommand] == 0x00
  {
    Build(0x02, PowerGroup, ChargingStatusCommand, 0x00, [0x00])
  }

  // ---------------------------------------------------------------------
  // Effect requests.

  /** razer_set_wave_mode: the direction goes unchecked into the first
      parameter; the group stays the template's 0x03. */
  function WaveFrame(direction: byte): (f: Frame)
    ensures Shaped(f, 0x02, EffectsGroup, EffectCommand, 1)
    ensures f[SubCommand] == WaveEffect && f[Params] == direction
  {
    Build(0x02, Prepare()[Group], EffectCommand, WaveEffect, [direction])
  }

  /** razer_set_static_mode. */
  function StaticFrame(c: Rgb): (f: Frame)
    ensures Shaped(f, 0x04, EffectsGroup, EffectCommand, 3)
    ensures f[SubCommand] == StaticEffect
    ensures f[Params..Params + 3] == Channels(c)
  {
    Build(0x04, Prepare()[Group], EffectCommand, StaticEffect, Channels(c))
  }

  /** razer_set_spectrum_mode: no parameters. */
  function SpectrumFrame(): (f: Frame)
    ensures Shaped(f, 0x02, EffectsGroup, EffectCommand, 0)
    ensures f[SubCommand] == SpectrumEffect
  {
    Build(0x02, Prepare()[Group], EffectCommand, SpectrumEffect, [])
  }

  /** razer_set_reactive_mode: the substituted speed, then the colour. */
  function ReactiveFrame(c: Rgb, speed: byte): (f: Frame)
    ensures Shaped(f, 0x05, EffectsGroup, EffectCommand, 4)
    ensures f[SubCommand] == ReactiveEffect
    ensures f[Params] <= 4
    ensures speed <= 4 ==> f[Params] == speed
    ensures speed > 4 ==> f[Params] == DefaultReactiveSpeed
    ensures f[Params + 1..Params + 4] == Channels(c)
  {
    Build(0x05, Prepare()[Group], EffectCommand, ReactiveEffect, [ReactiveSpeed(speed)] + Channels(c))
  }

  /** The parameters razer_set_breath_mode writes: the type, the first colour
      only for types 1 and 2, the second colour only for type 2. */
  function BreathParams(kind: byte, c1: Rgb, c2: Rgb): seq<byte>
  {
    [kind]
    + (if kind == 1 || kind == 2 then Channels(c1) else [])
    + (if kind == 2 then Channels(c2) else [])
  }

  /** razer_set_breath_mode: colour bytes the type does not use stay zero. */
  function BreathFrame(kind: byte, c1: Rgb, c2: Rgb): (f: Frame)
    ensures Shaped(f, 0x08, EffectsGroup, EffectCommand, 7)
    ensures f[SubCommand] == BreathEffect && f[Params] == kind
    ensures f[Params + 1..Params + 4] == if kind == 1 || kind == 2 then Channels(c1) else Zeros(3)
    ensures f[Params + 4..Params + 7] == if kind == 2 then Channels(c2) else Zeros(3)
  {
    Build(0x08, Prepare()[Group], EffectCommand, BreathEffect, BreathParams(kind, c1, c2))
  }

  // ---------------------------------------------------------------------
  // Power-management requests.

  /** razer_set_wireless_brightness: the brightness is the sub-command byte. */
  function BrightnessFrame(brightness: byte): (f: Frame)
    ensures Shaped(f, 0x01, PowerGroup, BrightnessCommand, 0)
    ensures f[SubCommand] == brightness
  {
    Build(0x01, PowerGroup, BrightnessCommand, brightness, [])
  }

  /** razer_set_low_battery_threshold: the capped threshold is the sub-command. */
  function ThresholdFrame(threshold: byte): (f: Frame)
    ensures Shaped(f, 0x01, PowerGroup, ThresholdCommand, 0)
    ensures f[SubCommand] <= MaxThreshold
    ensures threshold <= MaxThreshold ==> f[SubCommand] == threshold
    ensures threshold > MaxThreshold ==> f[SubCommand] == MaxThreshold
  {
    Build(0x01, PowerGroup, ThresholdCommand, CapThreshold(threshold), [])
  }

  /** razer_set_idle_time: min(t, 900) split big-endian across the sub-command
      and the first parameter. */
  function IdleTimeFrame(t: ushort): (f: Frame)
    ensures Shaped(f, 0x02, PowerGroup, IdleTimeCommand, 1)
    ensures IdleTimeOf(f) == Min16(t, MaxIdleTime)
  {
    var (hi, lo) := SplitBigEndian(CapIdleTime(t));
    Build(0x02, PowerGroup, IdleTimeCommand, hi, [lo])
  }

  /** razer_set_mouse_dpi: each axis capped at 16000 on its own, x then y
      big-endian, then two zero bytes. */
  function DpiFrame(x: ushort, y: ushort): (f: Frame)
    ensures Shaped(f, 0x07, DpiGroup, DpiCommand, 6)
    ensures f[SubCommand] == 0x00
    ensures DpiOf(f) == (Min16(x, MaxDpi), Min16(y, MaxDpi))
    ensures f[Params + 4] == 0x00 && f[Params + 5] == 0x00
  {
    var xs := SplitBigEndian(CapDpi(x));
    var ys := SplitBigEndian(CapDpi(y));
    var params := [xs.0, xs.1, ys.0, ys.1, 0x00, 0x00];
    var f := Build(0x07, DpiGroup, DpiCommand, 0x00, params);
    var window := f[Params..Params + 6];
    assert window == params;
    assert f[Params] == window[0] && f[Params + 1] == window[1];
    assert f[Params + 2] == window[2] && f[Params + 3] == window[3];
    f
  }

  /** razer_set_charging_effect: the substituted type is the sub-command. */
  function ChargingEffectFrame(chargeType: byte): (f: Frame)
    ensures Shaped(f, 0x01, EffectsGroup, ChargingEffectCommand, 0)
    ensures f[SubCommand] == 0 || f[SubCommand] == 1
    ensures chargeType <= 1 ==> f[SubCommand] == chargeType
    ensures chargeType > 1 ==> f[SubCommand] == 1
  {
    Build(0x01, EffectsGroup, ChargingEffectCommand, ChargeType(chargeType), [])
  }

  /** razer_set_charging_colour: two reports, in order. First the
      charging-effect report for type 1, then the colour report whose
      parameters are 0x03 followed by the colour. */
  function ChargingColourFrames(c: Rgb): (fs: seq<Frame>)
    ensures |fs| == 2
    ensures Shaped(fs[0], 0x01, EffectsGroup, ChargingEffectCommand, 0)
    ensures fs[0][SubCommand] == 0x01
    ensures Shaped(fs[1], 0x05, EffectsGroup, ChargingColourCommand, 4)
    ensures fs[1][SubCommand] == 0x00
    ensures fs[1][Params..Params + 4] == [0x03] + Channels(c)
  {
    [ChargingEffectFrame(0x01),
     Build(0x05, EffectsGroup, ChargingColourCommand, 0x00, [0x03] + Channels(c))]
  }

  // ---------------------------------------------------------------------
  // Properties relating several calls.

  /** Clamping is invisible on the wire: an out-of-range argument produces
      exactly the report of its substitute. */
  lemma ClampedArgumentsEncodeAlike(t: byte, u: ushort, x: ushort, y: ushort, c: Rgb, speed: byte)
    ensures ThresholdFrame(t) == ThresholdFrame(CapThreshold(t))
    ensures IdleTimeFrame(u) == IdleTimeFrame(CapIdleTime(u))
    ensures DpiFrame(x, y) == DpiFrame(CapDpi(x), CapDpi(y))
    ensures ChargingEffectFrame(t) == ChargingEffectFrame(ChargeType(t))
    ensures ReactiveFrame(c, speed) == ReactiveFrame(c, ReactiveSpeed(speed))
  {
  }

  /** An idle time within range is carried exactly, and its high byte is at
      most 3 (900 = 0x0384). */
  lemma IdleTimeRoundTrip(t: ushort)
    requires t <= MaxIdleTime
    ensures IdleTimeOf(IdleTimeFrame(t)) == t
    ensures IdleTimeFrame(t)[SubCommand] <= 3
  {
  }

  /** A resolution within range is carried exactly, and the x axis never
      depends on y nor y on x. */
  lemma DpiRoundTrip(x: ushort, y: ushort, x': ushort, y': ushort)
    requires x <= MaxDpi && y <= MaxDpi
    ensures DpiOf(DpiFrame(x, y)) == (x, y)
    ensures DpiOf(DpiFrame(x, y)).0 == DpiOf(DpiFrame(x, y')).0
    ensures DpiOf(DpiFrame(x, y)).1 == DpiOf(DpiFrame(x', y)).1
  {
  }

  /** The static-colour report for colour (1, 2, 3): its checksum is the XOR of
      count 0x04, group 0x03, command 0x0A, sub-command 0x06 and 1, 2, 3,
      which is 0x0B. */
  lemma StaticFrameChecksumExample()
    ensures StaticFrame(Rgb(1, 2, 3))[Crc] == 0x0B
  {
    ChecksumOfRequest(StaticFrame(Rgb(1, 2, 3)), 0x04, 0x03, EffectCommand, StaticEffect, [1, 2, 3]);
    assert XorFold([1, 2, 3]) == 1 ^ 2 ^ 3 by {
      XorFoldSnoc([], 1);
      assert [] + [1 as byte] == [1];
      XorFoldSnoc([1], 2);
      assert [1 as byte] + [2] == [1, 2];
      XorFoldSnoc([1, 2], 3);
      assert [1 as byte, 2] + [3] == [1, 2, 3];
    }
  }
}
