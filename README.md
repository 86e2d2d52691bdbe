# Advantage Air bus monitor and CRC-8, modelled in Dafny

This project models the decoding side of the Advantage Air (AA) interop
tools. Those tools watch the RS-422 bus between an AA tablet and its control
box (CB), reached through an Ethernet adapter. The models are:

- **crc.dfy** (module `Crc`): the bus CRC-8 `AACRC8` from one C file. It is
  reflected and bitwise, with polynomial 0xB2, initial register 0x00 and
  final XOR 0xFF. From a second C file come the parametrised `CRC8` and
  the search that found those parameters. `CRC8` is tried on every
  polynomial 0x00..0xFE with final XOR 0x00 or 0xFF, and the search stops
  at the first pair that reproduces five recorded CRCs. Both CRCs are
  methods with the C loops. Each is proved equal to a left-fold
  specification over `bv8`. Its ghost counter shows exactly 8 shift steps
  per byte. The search is proved to be a first-match search, and the
  proof shows it finds exactly (0xB2, 0xFF).
- **text.dfy** (modules `Wrappers`, `Text`): the Python built-ins the
  monitor relies on. These are `bytes.fromhex`, `int(s, 16)` on two
  characters, `str(n)` and `f"{n:02X}"` (both with round trips back to
  the number), and `str.strip`, `str.split` and `str.startswith`.
- **registers.dfy** (module `Registers`): the nine payload decoders of
  `monitor_aa.py` and the dispatch table `decode_register`. Python hands
  back a dict, a formatted string or an "Incomplete …" string; here each
  is a case of `Decoded`. Where Python would raise `ValueError` (bad hex,
  or non-ASCII bytes for `decode('ascii')`), the decoder returns
  `Malformed`.
- **envelope.dfy** (module `Envelope`): `parse_u_message`, written as a
  method whose loop collects one entry per reported token. Each token is
  split into its fixed-width fields and its payload is decoded by
  register. Where the Python prints, the model returns an `Outcome`.
- **framer.dfy** (module `Framing`): the receive loop of `main`. The class
  `Framer` keeps the retained buffer. Its `Feed` appends the bytes read,
  runs the `re.findall`/`re.sub` search for `<U>(.*?)</U=[0-9a-fA-F]{2}>`,
  hands each frame body (decoded as UTF-8 with errors ignored) to
  `parse_u_message`, and cuts the matched spans out of the buffer. The
  search is leftmost, lazy and non-overlapping, and `.` never matches a
  newline. It is written as a function, and the lemmas about it give the
  order of the matches, the fact that each is leftmost and shortest, and
  the rebuilding of the buffer from its remainder and its frames.

## Model

| member | source | states |
|---|---|---|
| Crc.AaCrc8 | docs/cb_tablet_comms/crc_calculation/aacrc.c:5-21 | The nested loops return the fold specification with poly 0xB2 XOR 0xFF, `Crc8(data, 0xB2, 0xFF)`, for every input. So AACRC8 agrees with findpolynomial.c's CRC8 at those parameters (CRC8's result is the same function). The ghost count of inner-loop iterations is exactly 8 per byte. |
| Crc.ComputeCrc8 | docs/cb_tablet_comms/crc_calculation/findpolynomial.c:9-25 | CRC8 returns `Crc8(data, poly, finalXor)`, with exactly `8 * length` shift steps. |
| Crc.FoldSnoc | docs/cb_tablet_comms/crc_calculation/aacrc.c:9-19 | The computation is a left fold: the register for `data + [b]` is one byte step applied to the register for `data`. |
| Crc.RegisterSnoc | docs/cb_tablet_comms/crc_calculation/aacrc.c:7-19 | The same for the register started at 0x00. |
| Crc.FoldAppend | docs/cb_tablet_comms/crc_calculation/findpolynomial.c:13-23 | The register of a concatenation continues from the register of its prefix. |
| Crc.ByteStepExpanded | docs/cb_tablet_comms/crc_calculation/aacrc.c:11-18 | A byte step XORs the byte in and then shifts right eight times, XORing the polynomial in whenever the bit shifted out was 1. |
| Crc.EmptyInput | docs/cb_tablet_comms/crc_calculation/findpolynomial.c:11-24 | On empty input the result is the final XOR itself: 0x00 for final XOR 0, and 0xFF for AACRC8. |
| Crc.FinalXorOnce | docs/cb_tablet_comms/crc_calculation/findpolynomial.c:24 | `CRC8(d, p, x) == CRC8(d, p, 0) ^ x`, and XORing the output with the final XOR gives back the raw register. |
| Crc.PingVector | docs/cb_tablet_comms/crc_calculation/findpolynomial.c:28-29 | AACRC8("Ping") = 0xDB, the first recorded value. |
| Crc.AckOneVector | docs/cb_tablet_comms/crc_calculation/findpolynomial.c:28-29 | AACRC8("ackCAN 1") = 0xAA. |
| Crc.SetCanVector | docs/cb_tablet_comms/crc_calculation/findpolynomial.c:28-29 | AACRC8("setCAN ") = 0xB2. |
| Crc.GetSystemDataVector | docs/cb_tablet_comms/crc_calculation/findpolynomial.c:28-29 | AACRC8("getSystemData") = 0x15. |
| Crc.CanInUseVector | docs/cb_tablet_comms/crc_calculation/findpolynomial.c:28-29 | AACRC8("CAN2 in use") = 0x95. |
| Crc.AaParametersFit | docs/cb_tablet_comms/crc_calculation/findpolynomial.c:28-42 | (0xB2, 0xFF) is a candidate of the search and reproduces all five recorded values. |
| Crc.PingRejectsEarlier | docs/cb_tablet_comms/crc_calculation/findpolynomial.c:31-42 | Every candidate tried before (0xB2, 0xFF) already fails on "Ping". |
| Crc.CheckCandidate | docs/cb_tablet_comms/crc_calculation/findpolynomial.c:35-42 | The flag loop ends true exactly when every message's CRC equals its expected value. |
| Crc.VisitedAfterTry | docs/cb_tablet_comms/crc_calculation/findpolynomial.c:32-33 | Trying the final XOR for counter x adds exactly that candidate to the rejected ones. |
| Crc.VisitedAfterPoly | docs/cb_tablet_comms/crc_calculation/findpolynomial.c:31-32 | Once both final XORs of a poly have been tried, moving to the next poly leaves no candidate skipped. |
| Crc.BeforeIsVisited | docs/cb_tablet_comms/crc_calculation/findpolynomial.c:31-33 | The candidates before the current one in the search order are exactly the ones already tried. |
| Crc.AllVisited | docs/cb_tablet_comms/crc_calculation/findpolynomial.c:31 | When `poly < 0xff` fails, every candidate (poly 0x00..0xFE, final XOR 0x00 or 0xFF) has been tried. |
| Crc.SearchPolynomial | docs/cb_tablet_comms/crc_calculation/findpolynomial.c:31-51 | The result is "not found" exactly when no candidate fits all vectors. A reported pair is a candidate that fits all vectors, and no earlier candidate in (poly, then 0x00 before 0xFF) order fits. |
| Crc.FindPolynomial | docs/cb_tablet_comms/crc_calculation/findpolynomial.c:27-52 | On the five recorded vectors, main finds exactly (0xB2, 0xFF) and exits with status 0. |
| Text.ParseHex | docs/cb_tablet_comms/monitor_aa.py:21 | `bytes.fromhex` gives half as many bytes as hex digits. |
| Text.ParseHexMeaning | docs/cb_tablet_comms/monitor_aa.py:64 | `bytes.fromhex` succeeds exactly on an even number of hex digits, and byte k is the value of digits 2k and 2k+1, high nibble first. |
| Text.ParseInt16 | docs/cb_tablet_comms/monitor_aa.py:98-99 | `int(s, 16)` on two characters lies in -15..255. |
| Text.ParseInt16AndParseHex | docs/cb_tablet_comms/monitor_aa.py:212-215 | On two hex digits, `int(s, 16)` is the byte `bytes.fromhex` makes. It also accepts exactly the sign-plus-digit pairs that `bytes.fromhex` refuses. |
| Text.Hex2RoundTrip | docs/cb_tablet_comms/monitor_aa.py:115 | `f"{n:02X}"` reads back by `int(_, 16)` as n. |
| Text.DecimalRoundTrip | docs/cb_tablet_comms/monitor_aa.py:148 | The digits of `str(n)` read back as n. |
| Text.DecimalInjective | docs/cb_tablet_comms/monitor_aa.py:148 | Distinct naturals print differently. |
| Text.SignedDecimalRoundTrip | docs/cb_tablet_comms/monitor_aa.py:116 | `int(str(n)) == n` for every integer. |
| Text.SignedDecimalInjective | docs/cb_tablet_comms/monitor_aa.py:116 | Distinct integers print differently. |
| Text.TrimStart | docs/cb_tablet_comms/monitor_aa.py:265 | Drops exactly the leading whitespace: the result is a suffix, starts with a non-space, and everything dropped is whitespace. |
| Text.TrimEnd | docs/cb_tablet_comms/monitor_aa.py:265 | Drops exactly the trailing whitespace, in the same way. |
| Text.LeadingWord | docs/cb_tablet_comms/monitor_aa.py:273 | The maximal leading run of non-space characters. |
| Text.Split | docs/cb_tablet_comms/monitor_aa.py:273 | Every word of `split()` is non-empty and holds no whitespace. |
| Text.SplitRebuild | docs/cb_tablet_comms/monitor_aa.py:273 | Nothing is lost: the string is its gaps and its words laid end to end, in order (`g0 + w0 + g1 + … + w(n-1) + gn`), with one more gap than words. |
| Text.SplitGaps | docs/cb_tablet_comms/monitor_aa.py:273 | Every gap is all whitespace, and every gap between two words is non-empty. Together with the words holding no whitespace, this makes the words exactly the maximal runs of non-whitespace characters. |
| Registers.AsciiString | docs/cb_tablet_comms/monitor_aa.py:21 | `decode('ascii')` keeps the length, and each character has its byte's code. |
| Registers.DecodeAirconError | docs/cb_tablet_comms/monitor_aa.py:12-43 | "Incomplete AirCon Error data" exactly below 14 characters. Malformed exactly when the first 10 characters are not hex or decode to a byte of 0x80 or more. Otherwise the code is those five ASCII characters, "Reserved" is `data[10:14]`, and the description is the table's or "Unknown Error Code: …". |
| Registers.AirconErrorNeverDescribed | docs/cb_tablet_comms/monitor_aa.py:17-37 | The table lookup never succeeds: the decoded code always has five characters, and every key has three or four. |
| Registers.DecodeSetUid | docs/cb_tablet_comms/monitor_aa.py:45-59 | Incomplete exactly below 12 characters. Otherwise the UID has six characters, and UID + additional data == orig == the input. |
| Registers.SetUidNeedsTwelveDigits | docs/cb_tablet_comms/monitor_aa.py:46-53 | "aabbcc0000" is incomplete, and "aabbcc000000" splits into "aabbcc" and "000000". |
| Registers.DecodeZoneConfig | docs/cb_tablet_comms/monitor_aa.py:62-73 | Incomplete exactly below 14 characters, and Malformed exactly on bad hex. Otherwise the six fields are bytes 1..6 of `fromhex(data[:14])`. |
| Registers.DecodeZoneConfigCb | docs/cb_tablet_comms/monitor_aa.py:76-92 | Incomplete exactly below 14 characters, and Malformed exactly on bad hex. Otherwise the seven fields are the seven bytes, header first. |
| Registers.DecodeUnitType | docs/cb_tablet_comms/monitor_aa.py:94-117 | Incomplete exactly below 6 characters. Malformed exactly when `int(_, 16)` refuses either pair. Otherwise both labels are the table name or the fallback label of the value read; an unmapped code is never rejected. |
| Registers.UnitTypeLabelShowsCode | docs/cb_tablet_comms/monitor_aa.py:115 | For an unmapped code, the label is "Unknown (0x" + two characters + ")", and those two characters read back as the code. |
| Registers.UnitTypeLabelInjective | docs/cb_tablet_comms/monitor_aa.py:101-115 | Distinct unit-type codes get distinct labels. |
| Registers.UnknownDecimalShowsCode | docs/cb_tablet_comms/monitor_aa.py:116 | The number inside "Unknown (n)" reads back as the code. |
| Registers.DecimalLabelInjective | docs/cb_tablet_comms/monitor_aa.py:146 | Over a table with distinct names, distinct codes get distinct labels. |
| Registers.UnitTypeNamesDistinct | docs/cb_tablet_comms/monitor_aa.py:101-106 | The unit-type names are distinct, and none looks like a fallback label. |
| Registers.ActivationNamesDistinct | docs/cb_tablet_comms/monitor_aa.py:108-112 | The same for the activation names. |
| Registers.SensorTypeNamesDistinct | docs/cb_tablet_comms/monitor_aa.py:134-140 | The same for the sensor names. |
| Registers.ActivationAndSensorLabelsInjective | docs/cb_tablet_comms/monitor_aa.py:116 | Activation and sensor-type labels determine their codes. |
| Registers.SignedPairsAreRead | docs/cb_tablet_comms/monitor_aa.py:98-116 | `int(_, 16)` takes a sign: "-50100" decodes to unit type "Unknown (0x-5)", and "+50100" to "Unknown (0x05)", both "Expired". |
| Registers.DecodeZoneState | docs/cb_tablet_comms/monitor_aa.py:119-149 | Incomplete exactly below 14 characters, and Malformed exactly on bad hex. Otherwise "Zone Open" is bit 7 of byte 1, and the percentage is byte 1 & 0x7F, so it lies in 0..127 and the two together give byte 1 back. The sensor label comes from byte 2, the set temperature is byte 3 in half degrees, and the measured temperature is "b4.b5°C". |
| Registers.DecodeZoneConfigJz13 | docs/cb_tablet_comms/monitor_aa.py:161-183 | Incomplete exactly below 14 characters, and Malformed exactly on bad hex. Otherwise the seven fields are the seven bytes in order. |
| Registers.DecodeSystemStatus | docs/cb_tablet_comms/monitor_aa.py:186-206 | Incomplete exactly below 14 characters, and Malformed exactly when `int(data[6:8], 16)` fails. The system state is "On" exactly when `data[0:2] == "01"`, and otherwise "Off". Mode and fan are the table names, or "Unknown" for other keys. The set temperature is `int(data[6:8], 16)` half degrees, MyZone ID is `data[8:10]` unchanged, and fresh air is "On" exactly when `data[10:12] == "01"`. |
| Registers.SystemStatusExample | docs/cb_tablet_comms/monitor_aa.py:186-204 | "01010205010100" decodes to On, Cool, Medium, 5 half degrees, zone "01", fresh air On. |
| Registers.DecodeFirmwareStatus | docs/cb_tablet_comms/monitor_aa.py:208-222 | Incomplete exactly below 14 characters, and Malformed exactly when one of the four `int(_, 16)` calls fails. Otherwise the four fields are the values read from characters 0-2, 2-4, 4-6 and 6-8. |
| Registers.DecodeRegister | docs/cb_tablet_comms/monitor_aa.py:224-261 | The description is the table's, or "Unknown     " by default. Each handled id reaches its own decoder: 01 decode_zone_config, 02 decode_unit_type, 03 decode_zone_state, 04 decode_zone_config_jz13, 05 decode_system_status, 06 decode_firmware_status, 08 decode_aircon_error, 0a decode_set_uid. The payload is passed through unchanged exactly for the other ids. |
| Registers.RegisterIdsAreCaseSensitive | docs/cb_tablet_comms/monitor_aa.py:237-258 | "0A" is unknown and raw, while "0a" is the UID register and goes to decode_set_uid. |
| Registers.DescribedButRaw | docs/cb_tablet_comms/monitor_aa.py:232-261 | The ids 07, 09, 12 and 13 have a description but keep the payload raw. |
| Envelope.OriginName | docs/cb_tablet_comms/monitor_aa.py:284-287 | "01" is labelled "Tablet" and "03" is labelled "CB    "; any other origin is shown as itself. |
| Envelope.SplitToken | docs/cb_tablet_comms/monitor_aa.py:301-309 | The fields have widths 2, 2, 5, 2 and the rest, and laid end to end they are the token. The origin label comes from the table, and the description and decoded payload are decode_register's. |
| Envelope.ParseUMessage | docs/cb_tablet_comms/monitor_aa.py:264-298 | The method with its guards and loop computes `UMessage(message)`. |
| Envelope.ProcessTokens | docs/cb_tablet_comms/monitor_aa.py:291-309 | The token loop computes `Process(kind, tokens)`. |
| Envelope.UMessageGuards | docs/cb_tablet_comms/monitor_aa.py:267-282 | A Done or Raised outcome, the only kinds that carry entries, comes out exactly when the stripped body is non-empty, does not start with "Ping", has at least two words and starts with setCAN, getCAN or ackCAN. That outcome carries the command word, and its entries, and the token it stopped at, are those of the token loop run on the remaining words. |
| Envelope.ProcessReportsKeptTokens | docs/cb_tablet_comms/monitor_aa.py:291-298 | Every token other than "1" is reported once, in order, including the ones after a short token. If the loop stopped, the entries are those of the kept tokens before the one it stopped at. |
| Envelope.StopIsMalformed | docs/cb_tablet_comms/monitor_aa.py:295-308 | The loop stops only at one of its tokens that is at least 14 characters long and whose payload decode_register could not read, where the decoder raises `ValueError`. |
| Envelope.ProcessClassifiesTokens | docs/cb_tablet_comms/monitor_aa.py:293-309 | Exactly the tokens shorter than 14 characters are reported as skipped. Every record is the token split by `SplitToken` for the command word, so it carries the fixed-width fields and decode_register's result, and its payload decoded without error. |
| Envelope.ProcessAppend | docs/cb_tablet_comms/monitor_aa.py:291-298 | A skipped or decoded token does not affect how the later tokens are processed; only a raised error stops the loop. |
| Envelope.KeepAliveOnly | docs/cb_tablet_comms/monitor_aa.py:293-294 | A body of only "1" tokens yields no entries. |
| Framing.FindCloseIsLazy | docs/cb_tablet_comms/monitor_aa.py:338 | `(.*?)` stops at the first position where `</U=hh>` matches, provided no newline comes before it, and fails only when no such position exists. |
| Framing.SpansAreOrdered | docs/cb_tablet_comms/monitor_aa.py:338 | The matches found are real matches, in order and without overlap. |
| Framing.SpansAreLeftmost | docs/cb_tablet_comms/monitor_aa.py:338 | Each span found is the leftmost match: no match starts before the first span, in a gap between two spans, or after the last span. |
| Framing.BodiesAreShortest | docs/cb_tablet_comms/monitor_aa.py:338 | A frame body holds no newline and is followed by the first closing tag after its opening tag. |
| Framing.MatchIsWrapped | docs/cb_tablet_comms/monitor_aa.py:338-342 | The bytes of a match are `<U>` + body + `</U=` + two hex digits + `>`. |
| Framing.RebuiltIsBuffer | docs/cb_tablet_comms/monitor_aa.py:342 | Cutting out the spans loses nothing else: the gaps and the wrapped frames, laid end to end, are the buffer. |
| Framing.FramesAndRemainderRebuild | docs/cb_tablet_comms/monitor_aa.py:338-342 | The buffer is its `re.sub` remainder with the `re.findall` frames put back in place: the remainder `Remainder(b)` is the gaps `Gaps(b)` laid end to end, and the gaps with the frames `Frames(b)` between them, each wrapped as `<U>` + frame + `</U=` + its two hex digits + `>`, are the buffer. There is one more gap than frames. |
| Framing.CutIsGaps | docs/cb_tablet_comms/monitor_aa.py:342 | What is left after cutting out the spans is the gaps between them laid end to end. |
| Framing.WeaveIsRebuilt | docs/cb_tablet_comms/monitor_aa.py:338-342 | Putting each frame, wrapped in its tags, between its gaps writes the same bytes as putting each matched span back, with one more gap than spans. |
| Framing.SkipNoOpen | docs/cb_tablet_comms/monitor_aa.py:338 | The search passes over bytes where no `<U>` starts. |
| Framing.NoisySpans | docs/cb_tablet_comms/monitor_aa.py:338 | In `ab<U>x</U=00>cd<U>y` the search finds one match, from 2 to 6. |
| Framing.NoiseIsKept | docs/cb_tablet_comms/monitor_aa.py:338-342 | Noise before, between and after frames is kept, joined together: `ab<U>x</U=00>cd<U>y` yields `x` and keeps `abcd<U>y`. |
| Framing.NewlineBlocksFrame | docs/cb_tablet_comms/monitor_aa.py:338 | A newline (0x0A) in the body prevents the match, and the buffer is left whole. |
| Framing.ChunkingChangesFrames | docs/cb_tablet_comms/monitor_aa.py:336-342 | How the stream is split into reads changes the frames extracted and when: `<U<U>x</U=00>>a</U=11>` read at once gives `x` and keeps a whole frame, while read in two pieces it gives `x`, then `a`, and empties the buffer. |
| Framing.Utf8Ignore | docs/cb_tablet_comms/monitor_aa.py:265 | `decode('utf-8', errors='ignore')` never lengthens its input. |
| Framing.AsciiDecodes | docs/cb_tablet_comms/monitor_aa.py:265 | ASCII bytes decode to the characters with the same codes. |
| Framing.MapOutcomes | docs/cb_tablet_comms/monitor_aa.py:339-340 | One outcome per frame, in order: outcome k is the step applied to frame k. |
| Framing.UntilRaisedStops | docs/cb_tablet_comms/monitor_aa.py:339-340 | With no error, every outcome is kept. Otherwise the outcomes are kept up to and including the first error, and none after it. |
| Framing.ParseEach | docs/cb_tablet_comms/monitor_aa.py:339-340 | The `for message in u_messages` loop gives each frame's outcome in order and stops at the first ValueError. |
| Framing.Framer.constructor | docs/cb_tablet_comms/monitor_aa.py:327 | The buffer starts empty, and the loop is running. |
| Framing.Framer.Feed | docs/cb_tablet_comms/monitor_aa.py:333-344 | On an empty read the loop ends and nothing is extracted. Otherwise the frames are `re.findall` on old buffer + data, the outcomes are parse_u_message on each frame up to the first error, and the loop keeps running exactly when there was no error. While running, the new buffer is the `re.sub` remainder; after an error it is old buffer + data. |

## Left out

- Socket I/O (`connect`, `recv`, `close`), the hard-coded address and port, and the `KeyboardInterrupt` handler are not modelled. The bytes that `recv` returns are the argument of `Framer.Feed`.
- Every `print`/`printf` is left out. This includes the console line of parse_u_message, the "Unrecognized" and "Incomplete CAN message" warnings (returned as `Outcome` and `Entry` cases instead) and the f-string of decode_zone_config (returned as its six fields).
- Set temperatures are floats (`/ 2.0`) in Python. The model keeps the raw value in half-degree units, so no floating point is modelled.
- Text.ParseInt16: Python's `int(_, 16)` also accepts surrounding whitespace and Unicode decimal digits outside ASCII (such as U+0663, read as 3). Whitespace cannot reach it, because the payloads are slices of words from `split()`. Unicode decimal digits can: a frame body is any bytes decoded as UTF-8, and `split()` keeps them in a word. The model does not include the Unicode table of decimal digits, so it refuses such a pair.
- Registers.DecodeUnitType: on a pair holding a non-ASCII decimal digit (`"٣٣0100"`, say) Python reads the digit's value and goes on ("Unknown (0x33)"), while the model reports Malformed, so the token loop and the receive loop stop there (see Text.ParseInt16).
- Registers.DecodeSystemStatus: the same for the set-temperature pair `data[6:8]`.
- Registers.DecodeFirmwareStatus: the same for each of its four pairs.
- Text.ParseHex: `bytes.fromhex` skips whitespace between pairs, and split words hold none, so this is not modelled.
- Framing.Framer: the buffer is a `seq` of integers in 0..255, which is Python's view of `bytes`, not of `bv8`. The framer does no bit arithmetic.
- Framing.Framer.Feed: it returns the frames and outcomes that main hands to parse_u_message and prints. `running` stands for main leaving its loop, after an empty read or an uncaught ValueError. Nothing after that point is modelled.
- The `& 0x80` / `& 0x7F` masks of decode_zone_state are written as arithmetic on a byte (`b / 128 * 128`, `b % 128`); they are the same thing for values 0..255.
- The `main` of aacrc.c is not modelled: it is command-line glue and calls a `CRC8` that the file does not declare.
- decode_zone_config_cb is modelled as a standalone decoder, because decode_register never dispatches to it.
- Concrete end-to-end examples from a token through the decoders are not part of the model. By design, the properties of a token's path through `SplitToken`, `DecodeRegister` and the decoders are stated for all inputs instead.

## Where the code departs from a natural reading of the protocol

The model follows the code in each of these cases. The expectations below
are what a reader of the protocol might assume; they are not stated in the
source files.

- **Feeding in pieces.** One might expect that feeding a stream in chunks gives the same frames as feeding it whole, and that after extraction the buffer holds the bytes after the last end marker. The code does neither. `re.sub` keeps the noise around removed frames and joins it, so a new frame can form from two fragments and wait in the buffer for the next read (`Framing.ChunkingChangesFrames`, `Framing.NoiseIsKept`).
- **Empty reads.** An empty read might be taken for a no-op, but in the code it ends the receive loop (`Framing.Framer.Feed`).
- **Bad hex is fatal.** A token whose payload its decoder cannot read (bad hex, or a non-ASCII aircon error code) is not skipped like a short one. The decoder's `ValueError` ends parse_u_message, and since main catches only `KeyboardInterrupt` it ends the receive loop too (`Envelope.StopIsMalformed`, `Envelope.ProcessReportsKeptTokens`, `Framing.Framer.Feed`).
- **Ping prefix.** Every body that merely starts with "Ping" is dropped, including a longer one such as "Pingback 01" (`Envelope.UMessageGuards`).
- **SetUID threshold.** A SetUID payload of a six-character UID and four characters of extra data, such as `aabbcc0000`, is too short for the code's 12-character threshold, so it returns "Incomplete Set UID data" (`Registers.SetUidNeedsTwelveDigits`).
- **Token fields.** The code's widths (2, 2, 5, 2, rest) split the token `0103120340105010205010100` into unit id `12034`, register `01` and payload `05010205010100`. It does not give unit id `03120` and register `05`, as one might read the token (`Envelope.SplitToken` states the widths).
