# MyActuator RMD CAN driver: a verified model of the payload codec and framing

This project models the core of the MyActuator RMD CAN driver. The driver talks to RMD actuators over SocketCAN, using classic CAN frames of eight data bytes.

What is modelled:

- **Payload codec.** A `Message` holds an 8-byte payload. `setAt<T>(v, i)` copies the little-endian, two's-complement bytes of an integer to offset `i`. `getAs<T>(i)` reads them back. Both throw `std::out_of_range` when the value does not fit.
- **Command framing.** Byte 0 of every payload is the command byte. A request forces it: `SingleMotorRequest<C>`, the legacy `Request<C>`, and `SetGainsRequest<C>`. A response throws unless byte 0 is the expected one: `SingleMotorMessage<C>`, `SingleMotorResponse<C>`, and about twenty response classes of the current and the legacy tree. The version-date responses of both trees also demand zeros in bytes 1..3.
- **Requests and responses.** The requests write their fields in place and have getters. The response decoders read fixed fields, all as raw integers.
- **Addressing.** The driver classes turn an actuator id into a CAN identifier. `CanNode` keeps a list of actuators and a receive filter per actuator. The protocol `Node` and the legacy `Node` are each bound to one actuator. All three check the id against [1, 32].
- **SocketCAN helpers.** The pure parts of `can::Node`:
  - the receive filter list;
  - the error mask;
  - the classification of an error frame into its exception;
  - the frame handed to the kernel.
- **Printers.** The `operator <<` formatters of `io.hpp` and the legacy `can_frame` printer, together with `toTimeval`.
- **The SocketCAN test program** (`test/can_node.cpp`): `removeSubstr`, `std::stoul(s, nullptr, 16)` and the send branch.

The model follows the source's own form:

- `Message`, `CanNode` and the two `Node` classes are Dafny classes whose methods update fields.
- The loops of `addId`, `setRecvFilter`, `removeSubstr`, the payload parser and the frame printer are methods with loop invariants. Each is proved against a specification function.
- Everything else is functions on values, with lemmas.

Exceptions become `Result`/`Outcome` values that name the exception class. Fixed-width integers are subset types of `int`. Wrap-around is written out: `uint32` addition of an offset and an id, and the `static_cast<std::uint32_t>` of the timeout. Truncating C++ division is written out too.

Two behaviours of the code are modelled as written, although they may be unintended:

- `SetCanIdRequest` stores the id at byte 6, but `getCanId()` reads byte 7. Proved property: `Requests.SetCanIdThenGetCanId` shows that a freshly built request reports id 0.
- Responses check only byte 0. The two version-date responses are the exception: `responses/get_version_date_response.hpp` and the legacy `VersionDateResponse` (src/messages/responses/version_date_response.cpp:14) also check bytes 1..3.

## Model

| member | source | states |
|---|---|---|
| Codec.DecodeEncodeLE | include/myactuator_rmd/protocol/message.hpp:99 | reading back the little-endian bytes of an unsigned number gives the number |
| Codec.EncodeDecodeLE | include/myactuator_rmd/protocol/message.hpp:109 | every byte string is the little-endian encoding of the number it decodes to |
| Codec.ValueOfRepresentation | include/myactuator_rmd/protocol/message.hpp:108-110 | decoding the bytes `memcpy` stores for a value gives the value back, for every integer type and every value |
| Codec.RepresentationOfValue | include/myactuator_rmd/protocol/message.hpp:108-110 | every byte string of width sizeof(T) is the stored representation of the value it decodes to |
| Codec.RepresentationInjective | include/myactuator_rmd/protocol/message.hpp:99 | two values of a type with the same stored bytes are equal |
| Codec.Read | include/myactuator_rmd/protocol/message.hpp:103-111 | the value at an offset that fits is of the type, and its representation is exactly the bytes at that offset |
| Codec.ReadBytes | include/myactuator_rmd/protocol/message.hpp:108-110 | the value read is the two's-complement reading of the bytes, least significant first |
| Codec.Get | include/myactuator_rmd/protocol/message.hpp:103-111 | `getAs<T>(i)` succeeds exactly when sizeof(T) bytes fit at i, otherwise it is `out_of_range`; the value's bytes are the payload's bytes at i |
| Codec.Put | include/myactuator_rmd/protocol/message.hpp:94-101 | `setAt<T>(v, i)` succeeds exactly when the value fits, otherwise it is `out_of_range`; it writes v's bytes at i and leaves every other byte unchanged |
| Codec.GetAfterPut | include/myactuator_rmd/protocol/message.hpp:94-111 | after a successful `setAt<T>(v, i)`, `getAs<T>(i)` returns v |
| Codec.GetAfterPutElsewhere | include/myactuator_rmd/protocol/message.hpp:94-111 | a `setAt` does not change a field stored at disjoint bytes |
| Codec.PutWhatWasRead | include/myactuator_rmd/protocol/message.hpp:94-111 | writing back the value just read leaves the payload unchanged |
| Codec.OutOfRangeAsWrittenWraps | include/myactuator_rmd/protocol/message.hpp:96-98 | with wrapping `std::size_t` addition, the check lets offset 2^64-1 through for a two-byte type, although nothing fits there |
| Codec.OutOfRangeAsWrittenSmallOffsets | include/myactuator_rmd/protocol/message.hpp:96-98 | for every offset below 2^64-4, the check as written agrees with the intended bounds check |
| Codec.LittleEndianExample | test/protocol/responses_test.cpp:23-27 | the bytes 0x10, 0x27, 0, 0 at offset 4 are the int32 10000 |
| Codec.TwosComplementExample | test/protocol/responses_test.cpp:146-153 | the bytes 0x0C, 0xFE at offset 4 are the int16 -500 |
| Messages.Message.constructor | include/myactuator_rmd/protocol/message.hpp:89-92 | the new message holds exactly the given bytes |
| Messages.Message.Default | include/myactuator_rmd/protocol/message.hpp:48 | with the default argument the message holds eight zero bytes |
| Messages.Message.GetData | include/myactuator_rmd/protocol/message.hpp:85-87 | returns exactly the stored bytes |
| Messages.Message.SetAt | include/myactuator_rmd/protocol/message.hpp:94-101 | fails with `out_of_range` and changes nothing exactly when the value does not fit; otherwise the new bytes are `Put` of the old ones, and `getAs` at i then returns v |
| Messages.Message.GetAs | include/myactuator_rmd/protocol/message.hpp:103-111 | succeeds exactly when the value fits, otherwise `out_of_range`; the value's bytes are the stored bytes at i |
| Framing.CheckCommandByte | include/myactuator_rmd/protocol/single_motor_response.hpp:49-55 | a payload is accepted unchanged exactly when byte 0 is the expected command byte, otherwise the given exception is thrown |
| Framing.CheckCommandByteOnlyByte0 | include/myactuator_rmd/protocol/single_motor_response.hpp:51-53 | payloads that agree on byte 0 are accepted or rejected together |
| Framing.ForceCommandByte | include/myactuator_rmd/protocol/single_motor_request.hpp:46-51 | byte 0 becomes the command byte and bytes 1..7 are those given |
| Framing.ForceCommandByteIdempotent | include/myactuator_rmd/protocol/single_motor_request.hpp:46-51 | rebuilding a request from its own bytes changes nothing |
| Framing.ForceCommandByteDefault | include/myactuator_rmd/protocol/single_motor_request.hpp:39 | with the default argument a request is its command byte followed by seven zeros |
| Framing.ForcedPassesCheck | include/myactuator_rmd/protocol/single_motor_request.hpp:46-51 | a request's bytes pass the response check for the same command, whatever the data |
| SingleMotorMessage.FromData | include/myactuator_rmd/protocol/single_motor_message.hpp:48-55 | the bytes are kept exactly when byte 0 is C's byte, otherwise `ProtocolException` |
| SingleMotorMessage.DefaultPayload | include/myactuator_rmd/protocol/single_motor_message.hpp:57-62 | a default message is C's byte followed by seven zeros |
| SingleMotorMessage.NewDefault | include/myactuator_rmd/protocol/single_motor_message.hpp:57-62 | the default constructor yields the bytes of `DefaultPayload` and cannot fail |
| SingleMotorMessage.RequestFromData | include/myactuator_rmd/protocol/single_motor_message.hpp:82-86 | a request built from bytes throws exactly when byte 0 is wrong, as the checking constructor does |
| SingleMotorMessage.ResponseFromData | include/myactuator_rmd/protocol/single_motor_message.hpp:106-110 | a response built from bytes throws exactly when byte 0 is wrong |
| SingleMotorMessage.DefaultIsAccepted | include/myactuator_rmd/protocol/single_motor_message.hpp:48-62 | the default message of C passes C's check |
| SingleMotorMessage.AcceptedForOneCommand | include/myactuator_rmd/protocol/single_motor_message.hpp:48-55 | a payload is accepted for at most one command type |
| SingleMotorRequest.New | include/myactuator_rmd/protocol/single_motor_request.hpp:46-51 | the new request's bytes are the given ones with byte 0 forced to C; it never fails |
| SingleMotorResponse.New | include/myactuator_rmd/protocol/single_motor_response.hpp:49-55 | the received bytes are kept exactly when byte 0 is C's byte, otherwise `ProtocolException` |
| SingleMotorResponse.TailNotValidated | include/myactuator_rmd/protocol/single_motor_response.hpp:51-53 | any bytes 1..7 are accepted after the right byte 0 |
| CommandTypes.FromValueOfValue | include/myactuator_rmd/protocol/command_type.hpp:22-58 | every enumerator can be found again from its byte |
| CommandTypes.ValueInjective | include/myactuator_rmd/protocol/command_type.hpp:22-58 | the enumerators have pairwise distinct bytes |
| CommandTypes.ComparisonsAgree | include/myactuator_rmd/protocol/command_type.hpp:61-73 | `==` holds exactly for the enumerator's byte in both argument orders; `!=` is its negation in both orders; a byte compares equal to at most one enumerator |
| CommandTypes.CommandBytes | include/myactuator_rmd/protocol/command_type.hpp:22-58 | the gains commands are 0x30/0x31/0x32, the brake commands 0x77/0x78, CAN-id setting 0x79 |
| GainsLayout.ReadGains | include/myactuator_rmd/protocol/responses.hpp:98-106 | bytes 2..7 give current kp/ki, speed kp/ki and position kp/ki, in that order |
| GainsLayout.WriteGains | include/myactuator_rmd/protocol/requests.hpp:70-80 | bytes 2..7 become the six gains; bytes 0 and 1 are kept |
| GainsLayout.ReadWrittenGains | include/myactuator_rmd/protocol/requests.hpp:70-90 | the gains read back are the gains written |
| GainsLayout.WriteReadGains | include/myactuator_rmd/protocol/responses.hpp:98-106 | writing back the gains just read leaves the payload unchanged |
| GainsLayout.ReadGainsIgnoresHeader | include/myactuator_rmd/protocol/responses/gains_response.hpp:41-49 | bytes 0 and 1 do not influence the gains read |
| ActuatorState.MakePiGains | include/myactuator_rmd/actuator_state/gains.hpp:91-94 | the gains hold the given kp and ki (0 by default) |
| ActuatorState.MakeGains | include/myactuator_rmd/actuator_state/gains.hpp:96-99 | the three loops hold the given PI gains |
| ActuatorState.MakeGainsFromValues | include/myactuator_rmd/actuator_state/gains.hpp:101-106 | each of the six arguments lands in its loop and gain |
| ActuatorState.SixArgumentsGroupPairwise | include/myactuator_rmd/actuator_state/gains.hpp:101-106 | the six-argument constructor equals the three-argument one on the pairs |
| ActuatorState.DefaultGainsAreZero | include/myactuator_rmd/actuator_state/gains.hpp:78-80 | default gains are zero in every loop |
| Integers.AddUint32 | include/myactuator_rmd/driver/can_node.hpp:148-150 | `std::uint32_t` addition: the sum when below 2^32, otherwise the sum minus 2^32 |
| Integers.CastToUint32 | src/protocol/requests.cpp:105 | `static_cast<std::uint32_t>` keeps an in-range value and otherwise reduces modulo 2^32 |
| Integers.TruncDivMod | include/myactuator_rmd/can/utilities.hpp:54-55 | C++ `/` and `%` satisfy `(a/b)*b + a%b == a`, the remainder taking the dividend's sign |
| Addressing.CanId | include/myactuator_rmd/driver/can_node.hpp:148-150 | offset + id in 32-bit arithmetic: exact when no wrap, congruent modulo 2^32 always |
| Addressing.ActuatorIdOfCanId | include/myactuator_rmd/driver/can_node.hpp:148-155 | the actuator id can be recovered from its CAN identifier, even where the sum wraps |
| Addressing.CanIdInjective | include/myactuator_rmd/driver/can_node.hpp:148-155 | distinct actuator ids get distinct CAN identifiers |
| Addressing.DriverIdRanges | include/myactuator_rmd/driver/can_address_offset.hpp:24-25 | actuators 1..32 are addressed at 0x141..0x160 and answer from 0x241..0x260; the motion-mode offsets give 0x400 + id and 0x500 + id |
| Addressing.FirstActuatorExample | include/myactuator_rmd/driver/can_driver.hpp:27-44 | actuator 1 is 0x141/0x241 for the standard driver and 0x401/0x501 for the motion-mode driver |
| CanNodes.ReceiveIds | include/myactuator_rmd/driver/can_node.hpp:124-127 | one reply identifier per added id, in the same order |
| CanNodes.InstalledFilters | include/myactuator_rmd/driver/can_node.hpp:119-130 | no filter before the first `addId`; afterwards one non-inverted standard-frame filter per added id, in insertion order |
| CanNodes.InstalledFiltersAppend | include/myactuator_rmd/driver/can_node.hpp:123-128 | adding an id appends exactly the filter for its reply identifier |
| CanNodes.CanNode.constructor | include/myactuator_rmd/driver/can_node.hpp:113-116 | a new node has no actuators, no filter and nothing written |
| CanNodes.CanNode.GetCanSendId | include/myactuator_rmd/driver/can_node.hpp:148-150 | the request identifier is send offset + id, and gives the id back |
| CanNodes.CanNode.GetCanReceiveId | include/myactuator_rmd/driver/can_node.hpp:153-155 | the reply identifier is receive offset + id, and gives the id back |
| CanNodes.CanNode.AddId | include/myactuator_rmd/driver/can_node.hpp:119-130 | throws `Exception` and changes nothing exactly for an id outside [1, 32]; otherwise appends the id and installs the filters of all ids so far, which keeps the filter invariant |
| CanNodes.CanNode.Send | include/myactuator_rmd/driver/can_node.hpp:133-137 | writes one frame of the message's bytes to send offset + id, without a range check |
| ProtocolNodes.Node.Unconfigured | include/myactuator_rmd/protocol/node.hpp:91 | the socket as opened, with nothing filtered or written |
| ProtocolNodes.Node.New | include/myactuator_rmd/protocol/node.hpp:89-94 | the constructor fails exactly for an id outside [1, 32]; otherwise the node is consistent and bound to that id |
| ProtocolNodes.Node.UpdateIds | include/myactuator_rmd/protocol/node.hpp:97-106 | a rejected id changes no field; an accepted one sets the id, both derived identifiers and the one-element receive filter |
| ProtocolNodes.Node.Send | include/myactuator_rmd/protocol/node.hpp:109-112 | writes one frame of the message's bytes to the stored request identifier |
| ProtocolNodes.IdsDetermineActuator | include/myactuator_rmd/protocol/node.hpp:101-103 | a consistent node's identifiers give its actuator id back |
| LegacyNodes.Node.Unconfigured | include/myactuator_rmd_driver/node.hpp:77 | the socket as opened, before `updateIds` |
| LegacyNodes.Node.New | include/myactuator_rmd_driver/node.hpp:75-80 | fails exactly for an id outside [1, 32]; otherwise the node is consistent and bound to that id |
| LegacyNodes.Node.UpdateIds | include/myactuator_rmd_driver/node.hpp:83-92 | a rejected id changes no field; an accepted one sets the id and both derived identifiers |
| LegacyNodes.LegacyOffsetsExample | include/myactuator_rmd_driver/messages/definitions.hpp:24-25 | with the legacy offsets actuator 1 is 0x141/0x241 |
| SocketCan.SetInvFilter | src/can/node.cpp:64 | `x \| CAN_INV_FILTER` sets bit 29 and keeps every other bit |
| SocketCan.FilterFor | src/can/node.cpp:62-68 | the filter holds the identifier, with bit 29 set when inverted, and the 11-bit mask |
| SocketCan.BuildRecvFilters | src/can/node.cpp:58-69 | the loop builds `RecvFilters` of the identifiers |
| SocketCan.RecvFilters | src/can/node.cpp:59-69 | one filter per identifier, in order |
| SocketCan.RecvFiltersAppend | src/can/node.cpp:61-69 | the filters of a longer list extend those of the shorter one |
| SocketCan.ErrorMask | src/can/node.cpp:92-98 | every one of the nine error classes is signalled exactly when errors are requested |
| SocketCan.ErrorMaskIsUnion | src/can/node.cpp:96-97 | the signalled mask is the union of the nine class bits, 0x1FF |
| SocketCan.FirstMatchIsLeast | src/can/node.cpp:115-135 | the class chosen is the one of least index whose bit is set, and `Exception` exactly when no bit is set |
| SocketCan.Classify | src/can/node.cpp:112-135 | an error frame throws one of the nine class errors or `Exception` |
| SocketCan.ClassifyIsFirstMatch | src/can/node.cpp:115-135 | the if-chain takes the first matching class in the listed order |
| SocketCan.ClassifyExamples | src/can/node.cpp:115-135 | lost arbitration wins over a controller problem; no class bit gives `Exception`; bus error wins over restarted |
| SocketCan.Read | src/can/node.cpp:105-141 | a frame fails exactly when CAN_ERR_FLAG is set, with the first matching class; otherwise its identifier and eight bytes are returned unchanged |
| SocketCan.WriteFrame | src/can/node.cpp:147-151 | the written frame has the identifier, dlc 8 and the data |
| SocketCan.ReadWhatWasWritten | src/can/node.cpp:105-158 | a written frame read back is the same frame, unless its identifier has the error flag |
| Text.DigitValue | include/myactuator_rmd/io.hpp:29 | a hex digit of either case has a value below 16 |
| Text.HexDigit | include/myactuator_rmd/io.hpp:29 | `std::hex` prints a lowercase digit whose value is d |
| Text.HexValue | include/myactuator_rmd/io.hpp:29 | a numeral of n digits denotes a number below 16^n |
| Text.Hex | include/myactuator_rmd/io.hpp:29 | the shortest lowercase numeral, no leading zero, that denotes n |
| Text.HexByte | include/myactuator_rmd_driver/can/utilities.hpp:37 | exactly two lowercase digits that denote the byte |
| Text.HexLength | include/myactuator_rmd/io.hpp:86 | a number below 16^w has at most w digits |
| Text.PadLeft | include/myactuator_rmd/io.hpp:29 | `setw` right-aligns: the field has the larger of the two widths, the text at the end and fill before it |
| Text.LeadingZeros | include/myactuator_rmd/io.hpp:29 | leading zeros do not change a numeral's value |
| Text.ZeroPaddedHex | include/myactuator_rmd/io.hpp:29 | the zero-padded numeral is lowercase hex, of the padded width, and denotes n |
| Text.PaddingKeepsValue | include/myactuator_rmd/io.hpp:29 | zero padding keeps the numeral's value |
| Text.SmallPadded | include/myactuator_rmd/io.hpp:29 | one digit padded to w is w-1 zeros and the digit |
| Text.ZeroPaddedHexWidth | include/myactuator_rmd/io.hpp:86 | a number below 16^w prints in exactly w characters |
| Text.Decimal | include/myactuator_rmd/io.hpp:125 | the shortest decimal numeral, no leading zero, that denotes n |
| Io.HexField | include/myactuator_rmd/io.hpp:29 | "0x", then w digits that read back as v, then the suffix |
| Io.AccelerationTypeDescription | include/myactuator_rmd/io.hpp:30-45 | the catch-all text is printed exactly for values above 3 |
| Io.FormatAccelerationType | include/myactuator_rmd/io.hpp:28-47 | "0x", two digits that read back as the value, then its description |
| Io.CanBaudRateDescription | include/myactuator_rmd/io.hpp:51-60 | the catch-all text is printed exactly for values above 1 |
| Io.FormatCanBaudRate | include/myactuator_rmd/io.hpp:49-62 | "0x", two digits that read back as the value, then its description |
| Io.ControlModeDescription | include/myactuator_rmd/io.hpp:66-81 | the catch-all text is printed exactly for values above 3 |
| Io.FormatControlMode | include/myactuator_rmd/io.hpp:64-83 | "0x", two digits that read back as the value, then its description |
| Io.ErrorCodeDescription | include/myactuator_rmd/io.hpp:87-120 | "unknown" exactly for unlisted codes; the three unspecified codes share one text |
| Io.FormatErrorCode | include/myactuator_rmd/io.hpp:85-122 | "0x", four digits that read back as the code, then its description |
| Io.FormatCanBaudRateExamples | include/myactuator_rmd/io.hpp:49-62 | 500 kbps and 1 Mbps print as "0x00 (500 kbps)" and "0x01 (1 Mbps)" |
| Io.FormatControlModeExample | include/myactuator_rmd/io.hpp:64-83 | position mode prints as "0x03 (position control mode)" |
| Io.FormatErrorCodeExample | include/myactuator_rmd/io.hpp:85-122 | two error bits together (0x0006) print as unknown |
| Io.FormatPiGains | include/myactuator_rmd/io.hpp:124-127 | starts with "kp: " and contains no closing brace |
| Io.FormatGains | include/myactuator_rmd/io.hpp:129-132 | starts with "current: {" and ends with "}" |
| Io.FormatPiGainsInjective | include/myactuator_rmd/io.hpp:124-127 | distinct PI gains print differently |
| Io.FormatPiGainsLayout | include/myactuator_rmd/io.hpp:124-127 | the text reads back: "kp: ", the decimal digits of kp up to the first comma, ", ki: ", then the decimal digits of ki |
| Io.FormatGainsLayout | include/myactuator_rmd/io.hpp:129-132 | the text reads back: "current: {", the current loop's PI text up to the next "}", "}, speed: {", the speed loop's PI text up to the next "}", "}, position: {", the position loop's PI text, and a final "}" |
| Io.PiFrame | include/myactuator_rmd/io.hpp:125 | two texts, the first without a comma, are recovered from the `PiGains` frame by searching for the first comma after "kp: " |
| Io.FramedLayout | include/myactuator_rmd/io.hpp:130 | any three texts, the first two without a closing brace, are recovered from the `Gains` frame by searching for the next "}" |
| Io.FormatGainsInjective | include/myactuator_rmd/io.hpp:129-132 | distinct gains print differently |
| Io.FormatPiGainsExample | include/myactuator_rmd/io.hpp:124-127 | kp 85, ki 25 prints as "kp: 85, ki: 25" |
| Timevals.ToMicroseconds | include/myactuator_rmd/can/utilities.hpp:52 | `duration_cast` to microseconds is the exact count rounded toward zero |
| Timevals.RoundTowardZero | include/myactuator_rmd/can/utilities.hpp:52 | the quotient leaves a remainder of the dividend's sign, smaller than the divisor |
| Timevals.SplitMicroseconds | include/myactuator_rmd/can/utilities.hpp:54-55 | seconds and microseconds add back to the count; the remainder is below one second and of the count's sign |
| Timevals.ToTimeval | include/myactuator_rmd/can/utilities.hpp:49-57 | seconds and microseconds together make exactly the count cast to microseconds; the microseconds lie within one second and carry the count's sign, so both parts are truncated toward zero |
| Timevals.SplitRoundTrip | include/myactuator_rmd/can/utilities.hpp:54-55 | the split loses no time and is the only normalised timeval for it |
| Timevals.ToTimevalExamples | test/can/utilities_test.cpp:21-40 | the integral test cases: 1 s gives (1, 0) and 20 ms gives (0, 20000) |
| Timevals.ToTimevalNegativeExample | include/myactuator_rmd/can/utilities.hpp:52-55 | a case beyond the tests: -1500 ms gives (-1, -500000), both parts truncated toward zero |
| LegacyCanUtilities.ByteText | include/myactuator_rmd_driver/can/utilities.hpp:37 | three characters, the last a space |
| LegacyCanUtilities.ByteTextValue | include/myactuator_rmd_driver/can/utilities.hpp:37 | the first two characters are hex digits that read back as the byte |
| LegacyCanUtilities.ByteTextIsPaddedHex | include/myactuator_rmd_driver/can/utilities.hpp:37 | the digits are the byte zero-padded to width 2 |
| LegacyCanUtilities.DataText | include/myactuator_rmd_driver/can/utilities.hpp:36-38 | three characters per byte |
| LegacyCanUtilities.DataTextBytes | include/myactuator_rmd_driver/can/utilities.hpp:36-38 | byte i is printed at characters 3i..3i+2 |
| LegacyCanUtilities.PrintFrame | include/myactuator_rmd_driver/can/utilities.hpp:34-41 | the printing loop appends the header and then the first `len` bytes, as `FrameText` |
| LegacyCanUtilities.PrintByte | include/myactuator_rmd_driver/can/utilities.hpp:36-38 | one loop iteration extends the text by the next byte |
| LegacyCanUtilities.FrameTextLayout | include/myactuator_rmd_driver/can/utilities.hpp:34-41 | the text is the header followed by three characters per byte, each holding that byte |
| LegacyCanUtilities.FrameByteAt | include/myactuator_rmd_driver/can/utilities.hpp:36-38 | byte i of the frame sits at characters 3i..3i+2 after the header |
| LegacyCanUtilities.HeaderLayout | include/myactuator_rmd_driver/can/utilities.hpp:35 | "id: 0x", digits that read back as the identifier, ", data: " |
| LegacyCanUtilities.HeaderExample | include/myactuator_rmd_driver/can/utilities.hpp:35 | identifier 0x141 prints as "id: 0x141, data: " |
| LegacyCanUtilities.IdentifierExample | include/myactuator_rmd_driver/can/utilities.hpp:35 | 0x141 padded to three digits is "141" |
| LegacyCanUtilities.DataTextExample | include/myactuator_rmd_driver/can/utilities.hpp:36-38 | the bytes 0x9A, 0x0F print as "9a 0f " |
| LegacyCanUtilities.PrintFrameExample | include/myactuator_rmd_driver/can/utilities.hpp:34-41 | a two-byte frame to 0x141 prints as "id: 0x141, data: 9a 0f " |
| LegacyDefinitions.FromValueOfValue | include/myactuator_rmd_driver/messages/definitions.hpp:32-68 | every legacy enumerator can be found again from its byte |
| LegacyDefinitions.ValueInjective | include/myactuator_rmd_driver/messages/definitions.hpp:32-68 | the legacy enumerators have pairwise distinct bytes |
| LegacyDefinitions.NotEqualsIsNegation | include/myactuator_rmd_driver/messages/definitions.hpp:71-77 | the separately written `!=` is the negation of `==`; a byte equals at most one enumerator |
| LegacyDefinitions.CommandBytes | include/myactuator_rmd_driver/messages/definitions.hpp:49-62 | shutdown 0x80, stop 0x81, version date 0xB2 |
| LegacyRequest.New | include/myactuator_rmd_driver/messages/request.hpp:46-51 | byte 0 becomes C's byte, bytes 1..7 are those given, and the default request is C and seven zeros |
| LegacyResponses.GetControllerGainsResponse | include/myactuator_rmd_driver/protocol/responses/get_controller_gains_response.hpp:44-50 | accepted unchanged exactly when byte 0 is 0x30, otherwise `ProtocolException` |
| LegacyResponses.GetMotorStatus1Response | include/myactuator_rmd_driver/protocol/responses/get_motor_status_1_response.hpp:55-61 | accepted unchanged exactly when byte 0 is 0x9A, otherwise `ProtocolException` |
| LegacyResponses.GetMotorStatus2Response | include/myactuator_rmd_driver/protocol/responses/get_motor_status_2_response.hpp:44-50 | accepted unchanged exactly when byte 0 is 0x9C, otherwise `ProtocolException` |
| LegacyResponses.SetControllerGainsResponse | include/myactuator_rmd_driver/protocol/responses/set_controller_gains_response.hpp:44-50 | accepted unchanged exactly when byte 0 is 0x31, otherwise `ProtocolException` |
| LegacyResponses.SetTorqueResponse | include/myactuator_rmd_driver/protocol/responses/set_torque_response.hpp:44-50 | accepted unchanged exactly when byte 0 is 0xA1, otherwise `ProtocolException` |
| LegacyResponses.GetMotorModelResponse | include/myactuator_rmd_driver/messages/responses/get_motor_model_response.hpp:55-61 | accepted unchanged exactly when byte 0 is 0xB5, otherwise `ParsingException` |
| LegacyResponses.SetControllerGainsPersistentlyResponse | include/myactuator_rmd_driver/messages/responses/set_controller_gains_persistently_response.hpp:44-50 | accepted unchanged exactly when byte 0 is 0x32, otherwise `ProtocolException` |
| LegacyResponses.SetPositionAbsoluteResponse | include/myactuator_rmd_driver/messages/responses/set_position_absolute_response.hpp:84-90 | accepted unchanged exactly when byte 0 is 0xA4, otherwise `ParsingException` |
| LegacyResponses.SetVelocityResponse | include/myactuator_rmd_driver/messages/responses/set_velocity_response.hpp:44-50 | accepted unchanged exactly when byte 0 is 0xA2, otherwise `ParsingException` |
| LegacyResponses.ShutdownMotorResponse | src/messages/responses/shutdown_motor_response.cpp:13-19 | accepted unchanged exactly when byte 0 is 0x80, otherwise `ParsingException` |
| LegacyResponses.StopMotorResponse | src/messages/responses/stop_motor_response.cpp:13-19 | accepted unchanged exactly when byte 0 is 0x81, otherwise `ProtocolException` |
| LegacyResponses.VersionDateResponse | src/messages/responses/version_date_response.cpp:13-19 | accepted unchanged exactly when bytes 0..3 are 0xB2, 0, 0, 0, otherwise `ParsingException` |
| LegacyResponses.GetVersion | include/myactuator_rmd_driver/messages/responses/version_date_response.hpp:54-58 | bytes 4..7 as an unsigned little-endian number |
| LegacyResponses.GetVersionAgrees | include/myactuator_rmd_driver/messages/responses/version_date_response.hpp:54-58 | the legacy `memcpy` getter reads the same number as `getAs<std::uint32_t>(4)` |
| LegacyResponses.VersionDateTailNotValidated | src/messages/responses/version_date_response.cpp:15 | after a valid header, any value in any of bytes 4..7 is accepted |
| ResponseHeaders.GetMotorStatus3Response | include/myactuator_rmd/protocol/responses/get_motor_status_3_response.hpp:55-61 | accepted unchanged exactly when byte 0 is 0x9D, otherwise `ProtocolException` |
| ResponseHeaders.GetMotorModelResponse | include/myactuator_rmd/protocol/responses/get_motor_model_response.hpp:55-61 | accepted unchanged exactly when byte 0 is 0xB5, otherwise `ProtocolException` |
| ResponseHeaders.SetControllerGainsPersistentlyResponse | include/myactuator_rmd/protocol/responses/set_controller_gains_persistently_response.hpp:44-50 | accepted unchanged exactly when byte 0 is 0x32, otherwise `ProtocolException` |
| ResponseHeaders.StopMotorResponse | src/protocol/responses/stop_motor_response.cpp:13-19 | accepted unchanged exactly when byte 0 is 0x81, otherwise `ProtocolException` |
| ResponseHeaders.ShutdownMotorResponse | src/protocol/responses/shutdown_motor_response.cpp:13-19 | accepted unchanged exactly when byte 0 is 0x80, otherwise `ProtocolException` |
| ResponseHeaders.GetVersionDateResponse | include/myactuator_rmd/protocol/responses/get_version_date_response.hpp:55-61 | accepted unchanged exactly when byte 0 is 0xB2 and bytes 1..3 are zero, otherwise `ProtocolException` |
| ResponseHeaders.VersionDateStricter | include/myactuator_rmd/protocol/responses/get_version_date_response.hpp:55-61 | the check is the header predicate and strictly stronger than the generic byte-0 check |
| ResponseHeaders.GetVersionDateExample | test/protocol/responses/get_version_date_response_test.cpp:19-23 | the test frame is accepted and carries version 20220206 |
| Responses.AliasCommandBytes | include/myactuator_rmd/protocol/responses.hpp:64-209 | the expected first byte of each feedback, gains, shutdown and stop response alias |
| Responses.GetStatus | include/myactuator_rmd/protocol/responses.hpp:56-62 | temperature from the signed byte 1; current, speed and angle from the int16 fields at 2, 4, 6 |
| Responses.GetStatusDeterminesBytes | include/myactuator_rmd/protocol/responses.hpp:56-62 | two payloads give the same feedback exactly when bytes 1..7 agree |
| Responses.GetStatusPositiveExample | test/protocol/responses_test.cpp:137-144 | the positive test frame is 50 degrees, 1.00 A, 500 dps, 45 degrees |
| Responses.GetStatusNegativeExample | test/protocol/responses_test.cpp:146-153 | the negative test frame is 50 degrees, -1.00 A, -500 dps, -45 degrees |
| Responses.GetGainsExample | test/protocol/responses/get_controller_gains_response_test.cpp:19-27 | the gains test frame is accepted and gives kp 85, ki 25 in every loop |
| Responses.GetAcceleration | src/protocol/responses.cpp:16-19 | the int32 at offset 4 |
| Responses.GetAccelerationExample | test/protocol/responses_test.cpp:23-27 | the test frame carries acceleration 10000 |
| Responses.GetModel | src/protocol/responses.cpp:21-24 | seven characters, character k being byte k+1 |
| Responses.GetModelInjective | src/protocol/responses.cpp:21-24 | two payloads give the same model string exactly when bytes 1..7 agree |
| Responses.GetModelExample | test/protocol/responses_test.cpp:46-50 | the test frame reads "X8S2V10" |
| Responses.GetMotorPowerRaw | src/protocol/responses.cpp:26-29 | the uint16 at offset 6 |
| Responses.GetMotorPowerRawExample | test/protocol/responses_test.cpp:52-56 | the test frame carries 2000 (200.0 W) |
| Responses.GetMotorStatus1 | src/protocol/responses.cpp:31-37 | temperature from byte 1; brake released exactly when byte 3 is non-zero; voltage and error code from the uint16 fields at 4 and 6 |
| Responses.GetMotorStatus1IgnoresByte2 | src/protocol/responses.cpp:31-37 | byte 2 does not influence motor status 1 |
| Responses.GetMotorStatus1Example | test/protocol/responses_test.cpp:58-65 | the test frame is 50 degrees, brake released, 48.5 V, low voltage |
| Responses.GetMotorStatus3 | src/protocol/responses.cpp:39-45 | temperature from byte 1; the three phase currents from the int16 fields at 2, 4, 6 |
| Responses.GetMotorStatus3Example | test/protocol/responses_test.cpp:76-83 | the test frame is 50 degrees, 30.10 A, -15.20 A, -16.00 A |
| Responses.GetMultiTurnAngleRaw | src/protocol/responses.cpp:47-50 | the int32 at offset 4 |
| Responses.GetSingleTurnAngleRaw | src/protocol/responses.cpp:52-55 | the int16 at offset 6 |
| Responses.AngleRawExamples | test/protocol/responses_test.cpp:85-113 | the test frames are 360.00 degrees multi-turn and 100.00 degrees single-turn |
| Responses.GetEncoderPosition | src/protocol/responses.cpp:57-60 | the int16 at offset 2 |
| Responses.GetEncoderRawPosition | src/protocol/responses.cpp:62-65 | the int16 at offset 4 |
| Responses.GetEncoderOffset | src/protocol/responses.cpp:67-70 | the int16 at offset 6 |
| Responses.EncoderExample | test/protocol/responses_test.cpp:115-123 | the test frame is position 2099, raw 11454, offset 9355 |
| Responses.GetRuntime | src/protocol/responses.cpp:72-75 | the uint32 at offset 4, in milliseconds |
| Responses.GetRuntimeExample | test/protocol/responses_test.cpp:125-129 | the test frame carries 268435456 ms |
| Responses.GetVersion | src/protocol/responses.cpp:77-79 | the uint32 at offset 4 |
| Responses.GetVersionExample | test/protocol/responses_test.cpp:131-135 | the test frame carries version 20220206 |
| Requests.AliasCommandBytes | include/myactuator_rmd/protocol/requests.hpp:20-26 | the first byte of the get-gains, control-mode, model, power and status requests |
| Requests.ControlCommandBytes | include/myactuator_rmd/protocol/requests.hpp:27-204 | the first byte of the runtime, version, brake, reset, shutdown and stop requests |
| Requests.GainsRequestCommands | include/myactuator_rmd/protocol/requests.hpp:92-93 | the persistent gains request writes ROM (0x32), the other RAM (0x31) |
| Requests.SetGainsPayload | include/myactuator_rmd/protocol/requests.hpp:70-80 | C, 0, then the six gains in loop order |
| Requests.NewSetGainsRequest | include/myactuator_rmd/protocol/requests.hpp:70-80 | the constructor's assignments give `SetGainsPayload` |
| Requests.SetGainsRoundTrip | include/myactuator_rmd/protocol/requests.hpp:70-90 | `getGains` returns the gains the request was built with |
| Requests.SetGainsExample | test/protocol/requests_test.cpp:79-88 | the test frame carries kp 85, ki 25 in every loop |
| Requests.IsWrite | src/protocol/requests.cpp:16-18 | true exactly when byte 2 of the payload is zero |
| Requests.CanIdRequestDirections | src/protocol/requests.cpp:16-35 | `GetCanIdPayload` is not a write and every `SetCanIdPayload` is; both carry the same command byte 0x79 and byte 1 |
| Requests.GetCanIdPayload | src/protocol/requests.cpp:20-24 | 0x79 with read flag 1 at byte 2, and it is not a write |
| Requests.NewGetCanIdRequest | src/protocol/requests.cpp:20-24 | the constructor gives `GetCanIdPayload` |
| Requests.SetCanIdPayload | src/protocol/requests.cpp:26-31 | 0x79, write flag 0 at byte 2, the id's low byte at byte 6, and it is a write |
| Requests.NewSetCanIdRequest | src/protocol/requests.cpp:26-31 | the constructor gives `SetCanIdPayload` |
| Requests.GetCanId | src/protocol/requests.cpp:33-35 | the getter returns exactly byte 7 of the payload, widened to 16 bits, so it is below 256 |
| Requests.SetCanIdThenGetCanId | src/protocol/requests.cpp:26-35 | the setter's byte 6 holds the id, but the getter reports 0 for every id |
| Requests.GetCanIdExample | test/protocol/requests_test.cpp:23-27 | the read request of the test is not a write |
| Requests.SetAccelerationPayload | src/protocol/requests.cpp:37-46 | 0x43, the mode at byte 1, zeros at 2 and 3, the acceleration's uint32 bytes at 4..7 |
| Requests.NewSetAccelerationRequest | src/protocol/requests.cpp:37-46 | throws `ValueRangeException` exactly for a non-zero value outside [100, 60000]; otherwise gives `SetAccelerationPayload` |
| Requests.GetAcceleration | src/protocol/requests.cpp:48-50 | the uint32 at offset 4 |
| Requests.GetMode | src/protocol/requests.cpp:52-54 | byte 1 |
| Requests.SetAccelerationRoundTrip | src/protocol/requests.cpp:37-54 | both getters return what the request was built with |
| Requests.SetAccelerationExamples | test/protocol/requests_test.cpp:47-77 | the test frames carry 10000 and the mode of each of the four types |
| Requests.SetCanBaudRatePayload | src/protocol/requests.cpp:56-60 | 0xB4 with the rate at byte 7 |
| Requests.NewSetCanBaudRateRequest | src/protocol/requests.cpp:56-60 | the constructor gives `SetCanBaudRatePayload` |
| Requests.GetBaudRate | src/protocol/requests.cpp:62-64 | byte 7 |
| Requests.SetCanBaudRateRoundTrip | src/protocol/requests.cpp:56-64 | the rate read back is the one given |
| Requests.SetCanBaudRateExamples | test/protocol/requests_test.cpp:29-39 | the test frames are 500 kbps and 1 Mbps |
| Requests.SetEncoderZeroPayload | src/protocol/requests.cpp:66-70 | 0x63 header, the offset's int32 bytes at 4..7 |
| Requests.NewSetEncoderZeroRequest | src/protocol/requests.cpp:66-70 | the constructor gives `SetEncoderZeroPayload` |
| Requests.GetEncoderZero | src/protocol/requests.cpp:72-74 | the int32 at offset 4 |
| Requests.SetEncoderZeroExample | test/protocol/requests_test.cpp:41-45 | the test frame {0x63, 0, 0, 0, 0x10, 0x27, 0, 0} is accepted and carries the offset 10000 |
| Requests.SetEncoderZeroRoundTrip | src/protocol/requests.cpp:66-74 | the offset read back is the one given |
| Requests.SetTimeoutPayload | src/protocol/requests.cpp:104-107 | 0xB3 header, the count cast to uint32 at 4..7 |
| Requests.NewSetTimeoutRequest | src/protocol/requests.cpp:104-107 | the constructor gives `SetTimeoutPayload` |
| Requests.GetTimeout | src/protocol/requests.cpp:109-112 | the uint32 at offset 4 |
| Requests.SetTimeoutRoundTrip | src/protocol/requests.cpp:104-112 | the read-back timeout is the given count modulo 2^32, unchanged when in range |
| Requests.SetTimeoutExamples | test/protocol/requests_test.cpp:117-127 | the test frames are 0 ms and 1000 ms |
| SetGainsRequest.NewFromGains | include/myactuator_rmd/protocol/requests/set_gains_request.hpp:78-88 | C, 0, then the gains; `getGains` returns them |
| SetGainsRequest.FromData | include/myactuator_rmd/protocol/requests/set_gains_request.hpp:90-94 | byte 0 forced to C, bytes 1..7 kept, so the gains read are those of the given bytes |
| CanNodeTool.FindFrom | test/can_node.cpp:32 | the first occurrence at or after i, or none |
| CanNodeTool.Find | test/can_node.cpp:32 | `npos` exactly when there is no occurrence; otherwise the leftmost one |
| CanNodeTool.RemoveAll | test/can_node.cpp:30-36 | the result is no longer than the input, at least one substring length shorter when there is an occurrence, and contains no occurrence |
| CanNodeTool.RemoveAllAbsent | test/can_node.cpp:30-36 | a string without occurrences is unchanged |
| CanNodeTool.RemoveAllIdempotent | test/can_node.cpp:30-36 | removing again changes nothing |
| CanNodeTool.RemoveSubstr | test/can_node.cpp:30-36 | the erase loop computes `RemoveAll` |
| CanNodeTool.RemoveAllStep | test/can_node.cpp:32-34 | erasing the leftmost occurrence does not change the final result |
| CanNodeTool.RemoveAllExample | test/can_node.cpp:65 | "00xx" becomes empty, because the erase joins a new "0x"; "0xA4" becomes "A4" |
| CanNodeTool.Stoul16 | test/can_node.cpp:64 | fails only with `invalid_argument` or `out_of_range`, and with `invalid_argument` exactly when no digit follows the sign and prefix |
| CanNodeTool.ToULong | test/can_node.cpp:64 | `out_of_range` exactly from 2^64 on; otherwise the value, negated modulo 2^64 after a minus |
| CanNodeTool.Stoul16OfHex | test/can_node.cpp:64 | every numeral `std::hex` prints reads back as its value |
| CanNodeTool.Stoul16OfPrefixedHex | test/can_node.cpp:64 | the same holds behind "0x" |
| CanNodeTool.Stoul16TwoCharacters | test/can_node.cpp:71 | a two-character chunk never overflows |
| CanNodeTool.Stoul16PrefixedExample | test/can_node.cpp:50 | "0x141" reads as 0x141 |
| CanNodeTool.Stoul16UpperCaseExample | test/can_node.cpp:51 | upper-case "A4" reads as 0xA4 |
| CanNodeTool.Stoul16NoDigitExample | test/can_node.cpp:71 | "zz" is `invalid_argument` |
| CanNodeTool.Stoul16NegativeExample | test/can_node.cpp:64 | "-1" wraps to 2^64-1 |
| CanNodeTool.ChunkByte | test/can_node.cpp:71 | a chunk fails only with `invalid_argument` |
| CanNodeTool.CastByte | test/can_node.cpp:71 | the cast keeps the low eight bits of a parse, or passes on its exception |
| CanNodeTool.Chunks | test/can_node.cpp:70-72 | one outcome per two characters |
| CanNodeTool.Collect | test/can_node.cpp:70-72 | a successful collection has one byte per outcome |
| CanNodeTool.CollectBytes | test/can_node.cpp:70-72 | byte k of a successful collection is outcome k's value |
| CanNodeTool.CollectAll | test/can_node.cpp:70-72 | outcomes that all succeed collect to their values |
| CanNodeTool.CollectFailure | test/can_node.cpp:70-72 | the collection fails exactly when some outcome fails, and then with the first failure's error |
| CanNodeTool.CollectError | test/can_node.cpp:70-72 | outcomes that can fail only with e collect to a failure with e |
| CanNodeTool.CollectStep | test/can_node.cpp:70-72 | one more success extends the collected prefix by its byte |
| CanNodeTool.CollectStops | test/can_node.cpp:70-72 | the first failing outcome decides the whole collection |
| CanNodeTool.PayloadFromText | test/can_node.cpp:66-72 | `runtime_error` exactly for an odd length or more than 16 characters; otherwise `invalid_argument` or a payload that is zero after the parsed bytes |
| CanNodeTool.PayloadFromTextChunks | test/can_node.cpp:69-72 | byte k of an accepted payload is chunk k's parse |
| CanNodeTool.PayloadFromTextFailure | test/can_node.cpp:66-72 | a well-sized string fails exactly when some chunk has no digit, with the first such chunk's error |
| CanNodeTool.ParsePayload | test/can_node.cpp:66-72 | the length check and the loop compute `PayloadFromText` |
| CanNodeTool.FillPayload | test/can_node.cpp:69-72 | the loop over the zero-initialised array computes `PayloadFromText` |
| CanNodeTool.PayloadText | test/can_node.cpp:51 | two lowercase hex digits per byte |
| CanNodeTool.PayloadTextChunks | test/can_node.cpp:51 | chunk k of the text is byte k's two digits |
| CanNodeTool.Stoul16OfHexByte | test/can_node.cpp:71 | the two digits of a byte read back as the byte |
| CanNodeTool.ChunkOfHexByte | test/can_node.cpp:71 | a chunk holding a byte's digits parses to the byte |
| CanNodeTool.ChunkOfDigits | test/can_node.cpp:71 | two hex digits of either case parse to 16·high + low |
| CanNodeTool.Stoul16OfTwoDigits | test/can_node.cpp:71 | two hex digits of either case read as a value below 256 |
| CanNodeTool.PayloadOfChunks | test/can_node.cpp:69-72 | chunks that all parse give their bytes, zero-padded to eight |
| CanNodeTool.PayloadOfDigits | test/can_node.cpp:66-72 | an even number of at most 16 hex digits is accepted, byte k being digits 2k and 2k+1 |
| CanNodeTool.PayloadRoundTrip | test/can_node.cpp:66-72 | every sequence of at most eight bytes, printed and parsed, comes back zero-padded |
| CanNodeTool.SendFrame | test/can_node.cpp:63-73 | the send branch yields a frame exactly when the id and the payload parse; the frame has dlc 8, the id cast to 32 bits and, as its data, the payload parsed from the text with every "0x" removed; every error is `invalid_argument`, `out_of_range` or `runtime_error` |
| CanNodeTool.SendFrameOutcome | test/can_node.cpp:63-73 | a frame is written exactly when both the id and the payload parse; the id's error comes first; the frame is the id cast to 32 bits, dlc 8 and the parsed payload |
| CanNodeTool.Send | test/can_node.cpp:63-73 | the branch, with its loops, computes `SendFrame` |
| CanNodeTool.SendFramePrinted | test/can_node.cpp:63-73 | an identifier and eight bytes printed behind "0x" make the frame of exactly that identifier and those bytes |
| CanNodeTool.RemovePrefix | test/can_node.cpp:65 | only the "0x" prefix is removed from a printed payload |

## Left out

- SocketCAN system calls are not modelled: `socket`, `ioctl`, `bind`, `setsockopt`, `read`, `write`, `close`, and the `SocketException` they raise. Reason: they are calls into the kernel. A received frame is a parameter, and a written frame or installed filter list is recorded state.
- `CanNode::sendRecv` and `Node::sendRecv` are not modelled: they are a write followed by a blocking kernel read.
- `setLoopback`, the send and receive timeouts, and the `can::Node` constructor are not modelled: they are only `setsockopt` calls. Their one computation, `toTimeval`, is modelled as `Timevals.ToTimeval`.
- Floating-point scaling is not modelled. This covers the 0.01 A, 0.1 V, 0.1 W and 0.01 degree factors, the float requests (position, torque, velocity), the `MotorStatus1/2/3` printers (io.hpp:134-150), and `duration<double>`. The getters return the raw integers.
- Exception messages are left out. A `Result` names only the exception class.
- Both `toTimeval` functions (current and legacy) are one computation, modelled once over integral tick counts. Timevals.ToMicroseconds: the overflow of `duration_cast` for counts beyond the 64-bit range is not modelled.
- In `test/can_node.cpp`, `main` is not modelled: its `boost::program_options` parsing, the receive branch (an endless read-and-print loop) and the `help` output are I/O.
- CanNodeTool.PayloadFromText: text arguments are modelled as ASCII, one character per byte. The source measures and slices them in UTF-8 bytes (test/can_node.cpp:66, 71), so a non-ASCII argument is not modelled. The same holds for `Chunks`, `ParsePayload`, `FillPayload`, `SendFrame` and `Stoul16`.
- CanNodeTool.RemoveAll: requires a non-empty substring. With an empty one, `find` matches at 0 forever and the source loop never ends.
- The legacy `Node::write` is not modelled. It passes the bytes and the identifier to `can::Node::write` in swapped order (include/myactuator_rmd_driver/node.hpp:96), and no overload takes them in that order.
- The legacy `updateIds` installs a receive filter through the legacy `can::Node`, which is not part of this model. LegacyNodes.Node.UpdateIds states only the identifiers.
- ProtocolNodes.Node.UpdateIds: `setRecvFilter(can_receive_id_)` passes a single identifier, but `can::Node` has only the list overload. It is modelled as the one-element list.
- requests/request.hpp is not part of this model. `SetGainsRequest.NewFromGains` and `SetGainsRequest.FromData` take its `Request<C>` to behave like `SingleMotorRequest<C>`.
- The enumerations (`AccelerationType`, `ControlMode`, `CanBaudRate`, `ErrorCode`) are plain bytes and 16-bit numbers, because the decoders cast any received value into them. Their constants are those of include/myactuator_rmd/actuator_state/acceleration_type.hpp:23-27, control_mode.hpp:22-26, can_baud_rate.hpp:22-24 and error_code.hpp:22-34; the older `BaudRate` of baud_rate.hpp:21-24 has the same two values.
- Requests.SetCanIdThenGetCanId: no round trip is claimed for the CAN-id request. Reason: the getter reads a different byte than the setter writes.

## Findings

| source | as written | input that shows it | evidently intended | confidence | as-written member | corrected member |
|---|---|---|---|---|---|---|
| include/myactuator_rmd/protocol/message.hpp:96-98 | `i + sizeof(T) > data_.size()` is computed in `std::size_t` and wraps | `setAt<std::uint16_t>(v, 2^64 - 1)`: the sum wraps to 1, the check passes, and `memcpy` writes far outside `data_` (`getAs` has the same check at 105-107) | throw `out_of_range` whenever the value does not fit within the eight bytes | not executed | Codec.OutOfRangeAsWrittenWraps | Codec.Put |
