# Razer mouse driver: report protocol model

A Dafny model of the protocol logic in the Linux driver `razermouse` for the
Razer Mamba. The driver talks to the mouse through fixed 90-byte USB feature
reports. This project models the parts of it that build and read those reports:

- the report codec: the template, the XOR checksum and the field layout (`report.dfy`);
- one encoder per `razer_set_*` function and the priming requests of the three
  queries, with the driver's clamping and defaulting rules (`commands.dfy`);
- the reply checks of `razer_get_battery_level`, `razer_is_charging` and
  `razer_get_serial` (`replies.dfy`);
- the status mapping of `razer_send_report` (`transport.dfy`);
- the byte-count and narrowing decisions of the `razer_attr_write_*` handlers,
  each modelled as a function from the written input to the reports sent (`attributes.dfy`).

Reports are `seq<bv8>` values of length 90 built by pure functions. Bytes are
`bv8`, the driver's `unsigned short` is `bv16`, and the parsed `unsigned long`
written to a numeric attribute is `bv64`. Big-endian splits and the C integer
conversions are therefore stated bit for bit.

The report layout comes from a header that is not part of this model. It is
fixed here as an assumption:

| offset | field |
|---|---|
| 0 | `report_start_marker` |
| 1 | `id` |
| 2 | `parameter_bytes_num` |
| 3 | `reserved2` (the group) |
| 4 | `command` |
| 5 | `sub_command` |
| 6..85 | `command_parameters` |
| 88 | `crc` |

Bytes 86, 87 and 89 are unused. This layout is consistent with three things in
the driver:
- the 20-byte serial copy starting at `&sub_command`;
- the comment placing the checksum at byte 88;
- the length check against 90.

Points where the driver's behaviour is easy to misread:
- Reactive speed: 0 through 4 pass unchanged and only values above 4 become 3,
  although the driver's own comment (razermouse.c:375) and warning (389) say 1-3.
- Rejected replies: the battery and charging queries return -1, and a rejected
  serial reply leaves the caller's buffer untouched. `Replies.StatusReply`
  keeps the one distinction the driver makes: it logs a wrong length
  differently from a wrong report.
- The serial reply is accepted with group 0x00 and command 0x82. Its
  sub-command is not checked, because it is the first serial byte. The serial
  request also uses group 0x00.
- A send whose transfer moved fewer than 90 bytes returns `-EIO`.
- Transfers are not serialised by any lock.

## Model

| member | source | states |
|---|---|---|
| Report.CalculateCrc | driver/razermouse.c:76-90 | the loop's result equals the XOR fold of bytes 2..87 of the report |
| Report.XorFoldAppend | driver/razermouse.c:84-87 | folding a concatenation is the XOR of folding each part |
| Report.ChecksumIgnoresUnsummedBytes | driver/razermouse.c:84 | two reports agreeing on bytes 2..87 have the same checksum, so bytes 0, 1, 88 and 89 never affect it |
| Report.Prepare | driver/razermouse.c:98-104 | the template is all zero except id = 0xFF and reserved2 = 0x03 |
| Report.Seal | driver/razermouse.c:135 | storing the checksum makes byte 88 correct and changes no other byte |
| Report.SealIdempotent | driver/razermouse.c:72-74 | recomputing the checksum of a sealed report changes nothing, because byte 88 is outside the window |
| Report.SealedFoldsToZero | driver/razermouse.c:72-74 | in a sealed report, bytes 2..88 XOR to zero |
| Report.Build | driver/razermouse.c:98-135 | a filled request keeps the template's start marker 0x00, id 0xFF and trailing zeros. It carries the given count, group, command, sub-command and leading parameters. It is sealed |
| Report.RequestWindow | driver/razermouse.c:84-87 | the checksum window of any request is count, group, command, sub-command, the parameters, then zeros |
| Report.XorFoldWindow | driver/razermouse.c:84-87 | the fold of a window made of four header bytes, the parameters and any number of zeros is the XOR of the four header bytes and the fold of the parameters |
| Report.ChecksumOfRequest | driver/razermouse.c:76-104 | the checksum of any request built from the template is count ^ group ^ command ^ sub-command ^ the XOR of its parameters |
| Commands.SplitBigEndian | driver/razermouse.c:524-525 | the high and low bytes recombine big-endian to the original 16-bit value |
| Commands.JoinThenSplit | driver/razermouse.c:565-568 | splitting a big-endian pair gives back the two bytes |
| Commands.CapThreshold | driver/razermouse.c:487-491 | the threshold is at most 0x3F, and it is unchanged unless it was above 0x3F |
| Commands.CapIdleTime | driver/razermouse.c:518-522 | the idle time becomes min(t, 900) |
| Commands.CapDpi | driver/razermouse.c:554-563 | each resolution becomes min(v, 16000) |
| Commands.ChargeType | driver/razermouse.c:600-605 | the charge type is 0 or 1, and 0 and 1 pass unchanged |
| Commands.ReactiveSpeed | driver/razermouse.c:387-391 | the speed is at most 4. Speeds 0..4 pass unchanged; above 4 it becomes 3 |
| Commands.SubstitutionsIdempotent | driver/razermouse.c:387-605 | applying any substitution twice gives the same value as applying it once |
| Commands.SerialRequest | driver/razermouse.c:127-135 | the serial request has count 0x16, group 0x00, command 0x82, sub-command 0, no other parameter bytes, and is sealed |
| Commands.BatteryRequest | driver/razermouse.c:198-205 | the battery request has count 0x02, group 0x07, command 0x80, sub-command 0, and is sealed |
| Commands.ChargingStatusRequest | driver/razermouse.c:265-272 | the charging request has count 0x02, group 0x07, command 0x84, sub-command 0, and is sealed |
| Commands.WaveFrame | driver/razermouse.c:317-329 | the wave report has group 0x03, command 0x0A, sub-command 0x01, and the unchecked direction as its only parameter |
| Commands.StaticFrame | driver/razermouse.c:337-351 | the static report's three parameters are the colour, red first, under sub-command 0x06 |
| Commands.SpectrumFrame | driver/razermouse.c:359-370 | the spectrum report has sub-command 0x04 and all parameters zero |
| Commands.ReactiveFrame | driver/razermouse.c:382-406 | params[0] is the speed when it is at most 4, and 3 otherwise. params[1..3] are the colour |
| Commands.BreathFrame | driver/razermouse.c:420-450 | sub-command is 0x03 and params[0] is the type. params[1..3] hold colour 1 only for types 1 and 2, and params[4..6] hold colour 2 only for type 2. Otherwise those bytes are zero |
| Commands.BrightnessFrame | driver/razermouse.c:458-470 | the brightness is the sub-command of a group 0x07, command 0x02 report |
| Commands.ThresholdFrame | driver/razermouse.c:482-501 | the sub-command is the threshold capped at 0x3F, in a group 0x07, command 0x01 report |
| Commands.IdleTimeFrame | driver/razermouse.c:511-536 | sub-command * 256 + params[0] equals min(t, 900), in a group 0x07, command 0x03, count 2 report |
| Commands.DpiFrame | driver/razermouse.c:544-584 | params[0..1] hold min(x, 16000) big-endian and params[2..3] hold min(y, 16000). params[4..5] are zero. The report has group 0x04, command 0x05, count 7 |
| Commands.ChargingEffectFrame | driver/razermouse.c:595-616 | the sub-command is the charge type when it is 0 or 1, and 1 otherwise |
| Commands.ChargingColourFrames | driver/razermouse.c:627-646 | exactly two reports in order: the charging-effect report for type 1, then group 0x03, command 0x01, sub-command 0 with parameters 0x03, r, g, b |
| Commands.ClampedArgumentsEncodeAlike | driver/razermouse.c:387-612 | an out-of-range argument produces exactly the same report as its substitute |
| Commands.IdleTimeRoundTrip | driver/razermouse.c:518-532 | an idle time of at most 900 reads back exactly from the report, and its high byte is at most 3 |
| Commands.DpiRoundTrip | driver/razermouse.c:554-580 | an in-range resolution reads back exactly, and each axis is independent of the other |
| Commands.StaticFrameChecksumExample | driver/razermouse.c:337-351 | the static report for colour (1, 2, 3) has checksum 0x0B |
| Replies.StatusReply | driver/razermouse.c:217-239 | a reply is accepted exactly when its length is 90, its marker 0x02, its group 0x07, its command the one asked for and its sub-command 0. An accepted reply yields params[0]. A wrong length is reported as such |
| Replies.ValueOrNone | driver/razermouse.c:196-241 | the numeric result is -1 exactly on rejection, and otherwise the accepted byte (0..255) |
| Replies.BatteryLevel | driver/razermouse.c:186-242 | the level is reply params[0] exactly when the reply is accepted for command 0x80, and -1 in every other case |
| Replies.ChargingStatus | driver/razermouse.c:253-309 | the flag is reply params[0] exactly when the reply is accepted for command 0x84, and -1 in every other case |
| Replies.StatusRepliesDisjoint | driver/razermouse.c:224-225 | no reply is accepted both as a battery reply and as a charging reply |
| Replies.SerialInto | driver/razermouse.c:147-174 | on an accepted serial reply, reply bytes 5..24 overwrite the first 20 bytes of the buffer. Otherwise the buffer is unchanged. Bytes past 20 are never touched |
| Replies.CString | driver/razermouse.c:1056 | the printed text is the longest zero-free prefix of the buffer |
| Replies.CStringStopsAtZero | driver/razermouse.c:1050 | a zero at index k bounds the printed text to k bytes |
| Replies.SerialString | driver/razermouse.c:1048-1057 | a rejected reply reads as "". An accepted one reads as at most 20 non-zero reply bytes from offset 5, ending at the first zero |
| Transport.SendStatus | driver/razermouse.c:66 | the status is 0 exactly for a full 90-byte transfer. Errors pass through, a short transfer gives -EIO, and the status is never positive |
| Transport.ChargingColourStatus | driver/razermouse.c:627-645 | the result is the colour send's status: 0 exactly when that transfer was complete, its error code when it failed, and -EIO when it was short |
| Transport.ChargingColourStatusIgnoresEffect | driver/razermouse.c:632 | the charging-effect send's outcome never shows in the result |
| Attributes.WaveWrite | driver/razermouse.c:720-733 | a wave report is sent exactly when the parsed value as an int is 1 or 2, with that value as the direction. Otherwise nothing is sent |
| Attributes.StaticWrite | driver/razermouse.c:750-766 | exactly three bytes are sent verbatim as the static colour. Any other count sends nothing |
| Attributes.SpectrumWrite | driver/razermouse.c:783-789 | any write sends one spectrum report |
| Attributes.ReactiveWrite | driver/razermouse.c:806-819 | exactly four bytes are sent as the substituted speed and the verbatim colour. Any other count sends nothing |
| Attributes.BreathKind | driver/razermouse.c:843-855 | 3 bytes select type 1, 6 bytes select type 2, and any other count selects type 3 |
| Attributes.BreathColours | driver/razermouse.c:841-855 | for 3 bytes the first colour is the written bytes and the second is zero. For 6 bytes the two colours are the written bytes in order. For any other count both colours are the zeroed `alt_buf` |
| Attributes.BreathWrite | driver/razermouse.c:836-857 | one breath report is sent. Its colour bytes are the written bytes for counts 3 and 6, and zero for any other count |
| Attributes.BrightnessWrite | driver/razermouse.c:874-882 | the brightness sent is the parsed value modulo 256 |
| Attributes.ThresholdWrite | driver/razermouse.c:899-907 | the threshold sent is the parsed value modulo 256, capped at 0x3F |
| Attributes.IdleTimeWrite | driver/razermouse.c:924-932 | the idle time sent is the parsed value modulo 65536, capped at 900 |
| Attributes.NarrowingPrecedesCaps | driver/razermouse.c:929 | writing 256 sets threshold 0 and writing 65536 sets idle time 0, because narrowing happens before the caps |
| Attributes.CharPairToUShort | driver/razermouse.c:961 | although both chars are sign-extended, the shift-or expression narrowed to 16 bits is the two bytes read big-endian |
| Attributes.CharSignednessIrrelevant | driver/razermouse.c:966-967 | with unsigned chars, the expression yields the same value |
| Attributes.DpiArgs | driver/razermouse.c:958-974 | 2 bytes set x = y = b0*256+b1. 4 bytes set x and y separately. Any other count gives 1500 by 1500 |
| Attributes.DpiWrite | driver/razermouse.c:949-977 | one DPI report is sent, carrying the requested resolution with each axis capped at 16000, then two zero bytes in params[4..5] |
| Attributes.ChargingEffectWrite | driver/razermouse.c:994-1008 | one written byte is used as the charge type when it is 0 or 1. Any other byte or any other count gives type 1 |
| Attributes.ChargingColourWrite | driver/razermouse.c:1025-1041 | two reports are sent, charging effect first. The colour is the written bytes when there are three of them, and FF0000 otherwise |

## Left out

- USB transfers: `usb_control_msg` in both directions, and the buffer copy and
  its `-ENOMEM` path in `razer_send_report`. A send is modelled by the length it
  returned, and a receive by that length plus the 90-byte buffer.
- The `usleep_range` settle delays: these are hardware timing.
- Locking: the driver has none, so the model has none.
- `printk` diagnostics: they do not change any result.
- `simple_strtoul` decimal parsing: its result is an input.
- `sprintf` decimal formatting of the numeric reads. The `%s` cut-off of the
  serial read is modelled, since it decides what the attribute shows.
- Read handlers that always print 0, and the write handlers of `get_battery`,
  `is_charging` and `get_serial`: these send nothing.
- The `count` that every write handler returns.
- Attribute declarations, probe and disconnect, `razer_raw_event`, and the
  module and device tables: these are driver plumbing with no protocol logic.
- The header declaring `struct razer_report`, `struct razer_rgb` and the
  `RAZER_*` constants: it is not part of this model. The layout above and
  `struct razer_rgb` = {r, g, b} are assumptions.
- Attributes.WaveWrite: `unsigned long` is taken to be 64 bits wide. The
  `int` conversion keeps the low 32 bits on either width, so the result is the same.
