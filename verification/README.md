# CAN lock/switch firmware: a verified model

The repository is firmware for a lock or switch on a CAN bus (STM32, RT-Thread). This project models its
application layer in Dafny and proves what the protocol, the stored configuration and the relay control
guarantee over every input and every run.

## Layout

| file | content |
|---|---|
| `Polynomial.dfy`, `Crc8.dfy`, `Division.dfy` | the checksum table and loop, and the polynomial division over GF(2) they compute |
| `ErrorDetection.dfy` | which changes of a frame the checksum test detects |
| `Frame.dfy`, `CanChannel.dfy`, `Filter.dfy` | frames, their packing into extended CAN data frames, and the receive filter |
| `Config.dfy` | the eight-byte configuration record and its six keys |
| `Device.dfy`, `Relay.dfy`, `Protocol.dfy`, `Commands.dfy`, `Machine.dfy` | the device model: state, environment, relay control, parser, commands, runs |
| `RelayProofs.dfy`, `CommandProofs.dfy`, `Runs.dfy` | the properties of one command and of whole runs |
| `Answers.dfy`, `Startup.dfy` | every answer byte by byte, the button's request, and what a reset leaves |
| `DeviceChange.dfy`, `Coils.dfy` | when 0x33 can be obeyed; when both coils of the K0 relay are driven |
| `DelayedStore.dfy` | the configuration store over an EEPROM that shows records late |
| `Firmware.dfy` | the firmware as written (static variables, RAM copy, mirror, polling loops, byte buffers), proved equal to the device model |

The device model has no caches: its state is the stored record, the loaded command table, the receive filter,
the relay result flags, the output pins and a history of everything that crossed the hardware boundary. Class
`Firmware` keeps the RAM copy of the record (`self.config.info`) and the mirror (`struct lock_info`) that the
source keeps; every method states its new state as a function of the device model, so the two caches are
proved coherent with the EEPROM after every command of every run.

The environment is arbitrary. The contact sensor, the digital input, the outcome of each EEPROM write, what a
read-back poll sees, the pin levels after a reset, the old contents of the receive buffer and the bytes behind
the message's data array are functions of the whole history, and no theorem restricts them unless its
`requires` says so (`Ideal`, `Commits`, `CoilsOffAtReset`, or a working EEPROM). A message shorter than a
handler expects leaves the handler reading old stack bytes, and the model does the same.

Modelling decisions:

- Bytes are `bv8`, serial numbers `bv32` in registers and `bv24` in the record, the CAN identifier `bv29`.
- `DEFAULT_HARDWARE_TYPE` is an enum name, so the preprocessor takes the second branch of
  `applications/hw_define.h:15-74`; `hardware_type` is always the AVC switch board.
- The receive filter is part of the device state. `main` builds it once per start-up from the stored address
  (`applications/main.c:117-138`), so it keeps the address of the last reset; each item compares the bits of
  its mask and lets only extended data frames through (`rt-thread/components/drivers/include/drivers/can.h:93-94`).
- The driver passes on the raw length code of a message. A code of 9 to 13 makes `can_channel_read` read on
  past the eight data bytes; the model gives it arbitrary bytes there (`beyond`).
- EEPROM reads succeed. A write changes all eight bytes or nothing. In the device
  model only the read-back polls of `avc_relay_state_save` may still see the previous record.
- The stored type value 5 is not excluded. The lookup of `device_id_table[5]` yields an arbitrary byte
  (`pastTable`), and a device booted with that type has no parser; a message then ends in a fault.

## What was found

- The comments in the source say 0x33 changes address and type. Its handler reads type, address and serial
  number from bytes 1 to 5 of the whole frame. Bytes 1 and 2 are header bytes that the receive filter fixes to
  zero and the device's own address, so an obeyed 0x33 can only turn the device into a YK lock
  (`DeviceChange.OnlyMakesYkLock`) and never changes the address (`Runs.AddressSafety`).
- The two high bytes that 0x33 compares with the stored serial number are the frame's own length byte and
  function code. Some message passes that comparison if and only if the AVC-switch table is loaded, the stored
  number is 0xLL33xx with LL at most 11, for LL of 1 also xx is the checksum of the first five frame bytes
  (own id, zero, own address, 1, 0x33), and for LL of 0 also xx is the old sixth byte of the receive buffer and
  the checksum of the first four frame bytes is 0x33 (`DeviceChange.DeviceChangeExact`). LL from 7 to 11 needs a
  length code above 8.
- The stored type 5 slips through the range check and leaves the device without a command table, silent for
  ever (`Runs.NoTableForever`). No run stores it: it is there at the end exactly if it was there at power-up
  (`Runs.MissingTableOnlyFromStart`).
- A cold lock's filter leaves the address open, with a comment that the parser will compare it. No code does,
  so a cold lock accepts every command at every address (`Runs.ColdHearsEveryAddress`).
- The read-back loop of `avc_relay_state_save` expects an EEPROM that shows records late. On such an EEPROM
  two `config_modify` calls in a row, as in 0x07, 0x2A, 0x33 and 0x37, lose the first update: it survives if
  and only if its record is visible before the second call starts (`DelayedStore.FirstUpdateSurvivesIff`). A
  0x37 that has to change the type then loses the new serial number, answers with the old one and still
  reports 0x10 (`DelayedStore.SlowAdopt`, `DelayedStore.SnKeptIff`).
- An agreed 0x32 request to disengage ends engaged, because an unconditional engage follows. With an ideal
  relay the outcome equals the request exactly when the request was to engage (`CommandProofs.IdealAgreement`),
  so the button of a switch can engage its relay but never disengage it (`Answers.AgreedPress`).
- After 0x37 on a YK device the old table stays loaded with the new device id. Until a reset an ordinary
  command to the old id is taken if and only if 0x07 was the last serial-number command taken since
  (`Runs.OldIdAfterSwitch`).
- A K0 close leaves its coil driven. Both coils of K0 are driven together, for 10 ticks each time, exactly when
  a K0 open follows a K0 close with no reset in between (`Coils.CoilsOverRun`, `Coils.CoilsClashIff`).
- The port commands and the relay macros read the K0 contact with opposite polarity. With an ideal relay each
  K0 command polls in vain to its end, 60 ticks to open and 50 to close (`RelayProofs.IdealK0`).
- Bit 4 of the 0x31 state byte is shared by the second lamp and the closed contact
  (`RelayProofs.LampStateBits`).
- Two-bit errors are detected in every frame of up to 15 bytes, and 15 is exact
  (`ErrorDetection.LongFramesCollide`). A CAN frame carries at most 11.
- The defaults that `config_init` puts in RAM for a zero address or serial number never become visible: the
  first read of the record overwrites them (`Firmware.Firmware.Reset`).

## Model

| member | source | states |
|---|---|---|
| Crc8.TableIsDivision | applications/crc8.c:10-42 | each of the 256 table entries is its index times x^8 modulo x^8+x^2+x+1, shifted out bit by bit |
| Crc8.Compute | applications/crc8.c:44-53 | the table-driven loop returns the register run over the bytes, inverted |
| Division.RegisterIsBitRun | applications/crc8.c:47-50 | on every byte string the byte-wise register equals the register fed one bit at a time |
| Division.ChecksumIsRemainder | applications/crc8.c:44-53 | a byte is the checksum if and only if, inverted, it is the remainder of M(x)*x^8: some quotient satisfies the division identity coefficient by coefficient |
| Polynomial.RemainderUnique | applications/crc8.c:44-53 | that division identity has only one remainder, so the previous row determines the checksum |
| ErrorDetection.Residue | applications/protocol.c:59-63 | the parser's checksum test holds exactly when the register over the whole frame ends at 0xf3 |
| ErrorDetection.OneCheckByte | applications/protocol.c:59-63 | whatever the other bytes of a frame are, exactly one value of any one byte, at any position, makes the frame pass |
| ErrorDetection.Undetected | applications/protocol.c:59-63 | a changed frame passes exactly when the change itself is divisible by the generator |
| ErrorDetection.OddChangesRejected | applications/protocol.c:59-63 | every change of an odd number of bits is rejected, for frames of any length |
| ErrorDetection.BurstsRejected | applications/protocol.c:59-63 | a change within eight consecutive bits, at any bit offset, passes only if nothing changed |
| ErrorDetection.Order | applications/crc8.c:44-53 | x has order exactly 127 modulo the generator |
| ErrorDetection.TwoBitChanges | applications/protocol.c:59-63 | a two-bit change passes if and only if the distance of the bits is a multiple of 127 |
| ErrorDetection.FewBitChangesRejected | applications/protocol.c:59-63 | no accepted frame of at most 15 bytes is one, two or three bit changes from another accepted frame |
| ErrorDetection.LongFramesCollide | applications/protocol.c:59-63 | every accepted frame of 16 bytes or more has an accepted neighbour two bit changes away, so the bound is exact |
| ErrorDetection.FreeByte | applications/crc8.c:44-53 | at any position of a message exactly one byte value reaches a given checksum register |
| Frame.LengthWraps | applications/protocol.c:64-68 | the length test on wrapping unsigned sizes means at least five bytes and a length byte of size minus five |
| Frame.MakeWellFormed | applications/handler.c:92-105 | a frame built around a payload of at most five bytes passes the parser's two tests and carries header, code and payload unchanged |
| CanChannel.Read | bsp/can_channel.c:112-138 | the loop fills the buffer with the low three identifier bytes, the data and, for a length code above 8, the memory behind it, up to the requested size, and leaves the rest alone |
| CanChannel.Write | bsp/can_channel.c:140-156 | the outgoing message is the packing of the frame; fewer than three bytes send nothing |
| CanChannel.RoundTrip | bsp/can_channel.c:112-156 | reading a packed frame gives the same bytes, for 3 to 11 bytes |
| CanChannel.RepackExact | bsp/can_channel.c:112-156 | sending on a received message reproduces it if and only if the identifier has 24 bits, it is an extended data frame and unused bytes are zero |
| CanChannel.MadeFrameSurvives | bsp/can_channel.c:112-156 | build, send, read: identical bytes that still pass the checksum and length tests |
| Filter.PassesExact | applications/main.c:117-138 | a message passes the receive filter if and only if it is an extended data frame with net id zero, the YK or switch device id and the filter's address, which a cold lock leaves open for the YK id |
| Config.DecodeEncode | applications/config.c:26-35 | the eight bytes of the record determine its fields |
| Config.EncodeDecode | applications/config.c:26-35 | every eight bytes are the encoding of what they decode to |
| Config.RecordLayout | applications/config.c:26-35 | the four bytes in struct order, then one little-endian word with the address in its low 8 bits and the serial number in the other 24 |
| Config.PutIsMapUpdate | applications/config.c:75-99 | writing one key updates a six-key map at that key, truncated to 8 or 24 bits, and nothing else |
| Config.LastWriteWins | applications/config.c:75-106 | over any run of requests a key holds its last successful write, or its first value |
| DelayedStore.UpdatedState | applications/config.c:100-103 | after a slow write the RAM copy holds the update only if its record is visible at once or is read after the commit |
| DelayedStore.PairRecord | applications/config.c:75-106 | the second of two updates rewrites the record from whatever the RAM copy held |
| DelayedStore.FirstUpdateSurvivesIff | applications/config.c:75-106 | of two updates to different keys the first survives if and only if its record was visible before the second started; the second always survives |
| DelayedStore.InstantModify | applications/config.c:75-106 | without latency an update of this store is the update of the device model |
| DelayedStore.InstantAdopt | applications/handler.c:327-355 | without latency 0x37 on this store leaves the record and gives the answer of the device model |
| DelayedStore.SlowAdopt | applications/handler.c:327-355 | with latency 0x37 answers the old serial number with 0x10, and if the type had to change the record ends with the new type and the old serial number |
| DelayedStore.SnKeptIff | applications/handler.c:182-185 | the new serial number is kept if and only if the EEPROM shows writes at once or the type already fits |
| Protocol.RowsAgree | applications/protocol.c:27-55 | in each table every row's index leads, through the dispatch array, to the handler written for the row's code |
| Protocol.RowExists | applications/protocol.c:27-55 | every handler a table is meant to offer has a row |
| Protocol.CodesDistinct | applications/protocol.h:10-30 | no two handlers share a function code, so an accepted frame has one handler |
| Protocol.FindRow | applications/protocol.c:82-91 | the table search returns an index exactly when the table offers a handler for the code |
| Protocol.Parse | applications/protocol.c:57-92 | success if and only if checksum, length, device-id gate and table membership all hold; the index is that of the one matching handler |
| RelayProofs.SetPortsEffect | applications/operation.c:102-139 | port control changes only the pins of the addressed ports, complementary, within 60 ticks, sends and stores nothing |
| RelayProofs.SaveRelayEffect | applications/operation.c:49-62 | exactly one write when the value differs and none when it matches; success means the stored state is the target; at most 10 ticks |
| RelayProofs.SaveSucceedsIff | applications/operation.c:49-62 | with delayed commits a save that writes succeeds exactly when the record is visible within nine ticks, and waits exactly that long or ten |
| RelayProofs.RelaySavedIff | applications/operation.c:140-173 | with delayed commits a relay command that must write reports saved exactly when the record is visible within nine ticks, whatever the contact does |
| RelayProofs.SetRelayEffect | applications/operation.c:140-173 | for every sensor: action implies set, set exactly when the last contact reading hit the target, one write exactly when the stored state differs, whether or not the contact moved, 20 ticks at most |
| RelayProofs.ResultByteRange | applications/operation.c:83-87 | the result byte is one of six values exactly when action implies set |
| RelayProofs.IdealSetRelay | applications/operation.c:140-173 | with an ideal relay contact and record end at the request, and action is reported and 10 ticks are spent exactly when the contact had to move |
| RelayProofs.IdealK0 | applications/operation.c:102-129 | with an ideal relay a K0 command moves the contact and then polls in vain: 60 ticks to open, 50 to close |
| RelayProofs.PortStateBits | applications/operation.c:68-74 | bits 6 and 5 are the K2 and K1 control pins, bit 4 the contact and bit 0 the input just read, the rest zero |
| RelayProofs.LampStateBits | applications/operation.c:75-79 | bit 0 is an open contact; bit 4 is the second lamp or a closed contact |
| CommandProofs.StoreEffect | applications/handler.c:90-501 | which command may change which field of the record, to which value, and that address and 0x33 type changes need the stored serial number |
| CommandProofs.AddressObeyed | applications/handler.c:135-151 | the converse: with a working EEPROM a command that presents the serial number is obeyed |
| CommandProofs.ClockEffect | applications/handler.c:90-501 | tick bounds 60, 20 and 40 for 0x02, 0x35 and 0x32 and none otherwise; nothing is sent before the final reply; table and filter stay |
| CommandProofs.FlagsEffect | applications/operation.c:140-173 | every command keeps "action implies set"; only relay commands touch the flags |
| CommandProofs.PinsEffect | applications/operation.c:102-139 | port pins move only for a 0x02 command that names the port |
| CommandProofs.ActionOf | applications/handler.c:90-501 | which requests are answered, under which code (0x32 as 0x35, 0x3F as 0x31, otherwise the same), and which one resets |
| CommandProofs.SnRoundTrip | applications/handler.c:327-355 | 0x37 answers a stored serial number byte for byte with 0x10, a failed write with the old one and 0x01 |
| CommandProofs.TypeAdopted | applications/handler.c:175-185 | with a working EEPROM 0x07 leaves a YK lock and 0x37 an AVC switch, with the requested serial number |
| CommandProofs.TimeoutsObeyed | applications/handler.c:431-457 | 0x2A stores both timeouts and answers the old and the new ones |
| CommandProofs.IdealCommand | applications/handler.c:227-253 | with an ideal relay 0x35 leaves contact, record and answer at the requested state with result 0x12 or 0x13, in 0 or 10 ticks |
| CommandProofs.IdealAgreement | applications/handler.c:256-292 | with an ideal relay an agreed 0x32 always ends engaged, as requested if and only if engaging was requested; the whole answer and the exact time, which show that a disengage was carried out first |
| Answers.StateAnswer | applications/handler.c:90-108 | 0x01 and 0x04 change nothing and answer address, serial number and a byte that shows the K1 and K2 control pins and the contact and input read for it |
| Answers.PortsAnswer | applications/handler.c:111-132 | 0x02 answers the address and the ports as the command left them, contact and input being read after everything it did |
| Answers.IdealPortsAnswer | applications/handler.c:111-132 | with an ideal relay bit 4 of that answer is the commanded state of K0, or the old contact if K0 is not named; the exact time |
| Answers.PortWrites | applications/operation.c:102-139 | the exact pin writes of 0x02 in order, for every sensor |
| Answers.CommandTrace | applications/handler.c:227-253 | 0x35 for every sensor: the exact readings and coil pulses in order, and an answer that shows the last reading and the flags of the attempt |
| Answers.AgreementTrace | applications/handler.c:256-292 | 0x32 for every sensor: an attempt at the agreed state, then an attempt to engage, each with its readings and coil pulses in order, and the answer |
| Answers.LampAnswer | applications/handler.c:206-224 | 0x31 and 0x3F change nothing and answer address, serial number, both lamps and the contact just read |
| Answers.SnCommandExact | applications/handler.c:175-185 | 0x07 and 0x37 for every EEPROM: the type is written whenever it does not fit, also after a failed serial number write; record and writes in order |
| Answers.YkSnAnswer | applications/handler.c:175-202 | 0x07 answers the requested serial number if it was stored, otherwise the old one |
| Answers.TimeoutsExact | applications/handler.c:431-457 | 0x2A for every EEPROM: the second write is made on top of whatever became of the first; record, writes and answer |
| Answers.DeviceAnswer | applications/handler.c:295-324 | 0x33 for every EEPROM: which writes are made, and an answer with stored type and address and success exactly if both were made |
| Answers.YkAddrExact | applications/handler.c:135-151 | 0x03 for every EEPROM: with the serial number the address is written and the device resets even after a failed write, without it nothing happens |
| Answers.ColdAddrAnswer | applications/handler.c:460-489 | 0x23 for every EEPROM: guarded write, answer with the stored address and the requested serial number bytes |
| Answers.ColdAnswer | applications/handler.c:380-428 | 0x21 and 0x25 change nothing and answer address, serial number and zero; 0x27 and 0x2F do nothing |
| Answers.AnswerOnBus | applications/handler.c:90-501 | what a handler answers is, byte for byte, the one message that goes on the bus |
| Answers.AnswersFollowCommands | applications/operation.c:68-74 | over every run the answers to 0x01, 0x02 and 0x04 show for K1 and K2 the last 0x02 command since the last reset that named the port |
| Answers.ButtonRequest | applications/main.c:90-107 | a button press makes a switch send one 0x32 request with its address and the opposite of the contact just read; on any other device it does nothing |
| Answers.AgreedPress | applications/handler.c:256-292 | with an ideal relay, press and agreement: the request asks for the opposite of the contact, and is fulfilled if and only if the contact was open |
| Startup.BootTakes | applications/protocol.c:104-131 | for every stored record, exactly which messages a restarted device takes: device id, address, function codes and handler by stored type |
| Startup.ResultZeroUntilCommand | applications/operation.c:83-87 | over every run the result byte is zero until a relay command is carried out after a reset |
| CommandProofs.DeviceChangeNeedsOverlap | applications/handler.c:295-309 | an accepted 0x33 frame presents the stored serial number only if that number overlaps the frame's length and code bytes |
| Runs.TakenIsHandled | applications/main.c:34-73 | an accepted message is handled by the one handler of its code |
| Runs.StepStore | applications/config.c:75-106 | the record changes only in a step that handles an accepted message, and then by the rule of its command; no button or reset changes it |
| Runs.AlwaysSound | applications/main.c:117-138 | in every reachable state the table is missing exactly if type 5 is stored, and the filter listens at the stored address unless a cold lock opened it |
| Runs.AddressSafety | applications/handler.c:135-151 | over every run with resets: a changed address was asked for by some accepted 0x03 or 0x23 frame presenting the serial number stored just before |
| Runs.AuthorisedIsObeyed | applications/handler.c:460-472 | the converse of one step: with a working EEPROM such a frame sets the address |
| Runs.ColdHearsEveryAddress | applications/main.c:135-138 | a cold lock accepts every command it knows under every address byte |
| Runs.MissingTableOnlyFromStart | applications/operation.c:213-219 | over every run: type 5 is stored, and the table missing, exactly if type 5 was stored at power-up |
| DeviceChange.OnlyMakesYkLock | applications/handler.c:295-309 | an accepted 0x33 leaves the record alone or, only if it presents the serial number and always then with a working EEPROM, makes the device a YK lock and changes nothing else |
| DeviceChange.DeviceChangeExact | applications/handler.c:295-309 | in every reachable state some message that passes the filter makes 0x33 pass its serial number comparison if and only if the switch table is loaded and the stored number overlaps the length and code bytes, with checksum conditions on own id and address for top bytes 0 and 1 and an old stack byte for 0 |
| Runs.NoTableForever | applications/protocol.c:104-131 | a device without a table never sends or stores anything again, whatever it receives and however often it is reset |
| Runs.Answer | applications/handler.c:90-501 | an accepted message is answered by at most one frame, decided by its code and operands, under the answer code of its own function code |
| Runs.EverySentFrameIsGood | applications/handler.c:90-489 | over every run each frame sent, button requests included, has 8 to 11 bytes and passes the parser's checksum and length tests |
| Runs.BoundedHandling | applications/hw_define.h:94-102 | every accepted message is handled within its command's tick bound, 60 at most, whatever sensor and EEPROM do |
| Runs.ResultByteAlwaysValid | applications/operation.c:83-87 | in every reachable state the result byte is one of six values |
| Runs.PortsFollowCommands | applications/hw_define.h:36-71 | over every run the K1 and K2 pins show the last 0x02 command that named the port since the last reset, complementary |
| Runs.DamagedMessageIgnored | applications/protocol.c:59-63 | a message damaged in one to three bits, or within eight consecutive bits, changes nothing in any state |
| Runs.TakenIff | applications/protocol.c:57-92 | a well-formed message that passes the filter is taken if and only if the table offers its command and the device-id gate is open |
| Runs.SnCommandAccepted | applications/protocol.c:74-89 | with the YK or AVC-switch table a valid 0x07 or 0x37 message that passes the filter is accepted under either device id |
| Runs.KindChanges | applications/handler.c:327-338 | one such message and a reset turn the device into a YK lock or an AVC switch, with table, device id and serial number |
| Runs.KindFollowsSnCommands | applications/handler.c:175-185 | over every run without a reset from a YK table: the lock type follows the last serial-number command taken, while table and filter stay |
| Runs.OldIdAfterSwitch | applications/protocol.c:74-80 | after an accepted 0x37 on a YK device and until a reset, an ordinary YK command to the old id is taken if and only if 0x07 was the last serial-number command taken since |
| Coils.K0Coils | applications/hw_define.h:40-43 | a K0 open pulses the opening coil for 10 ticks and leaves the closing coil alone; a K0 close leaves the closing coil driven |
| Coils.RelayCoils | applications/operation.c:140-173 | a relay command on resting coils never drives both and leaves both at rest |
| Coils.CoilsOverRun | applications/hw_define.h:40-43 | over every run with resets: the closing coil is driven exactly if K0 was closed since the last reset, and both coils were driven together for 10 ticks per K0 open in that state |
| Coils.CoilsClashIff | applications/operation.c:102-129 | both coils are driven together at some time if and only if a K0 open follows a K0 close with no reset in between |
| Firmware.Firmware.ConfigGet | applications/config.c:45-73 | refreshes the whole RAM copy and returns the field of the key |
| Firmware.Firmware.ConfigModify | applications/config.c:75-106 | the read-modify-write of the RAM copy is a one-key update of the EEPROM, or nothing; RAM copy and mirror follow |
| Firmware.Firmware.LockInfoUpdate | applications/lock.c:78-92 | address, serial number, sanitised type and device id of the mirror are a function of the EEPROM |
| Firmware.Firmware.ConfigInit | applications/config.c:122-140 | the RAM defaults for a zero address, a zero serial number and a type out of range |
| Firmware.Firmware.ProtocolInit | applications/protocol.c:104-131 | the table loaded for each sanitised type |
| Firmware.Firmware.Reset | applications/lock.c:94-113 | start-up keeps the record, loads the table and installs the filter for it, clears the flags and makes the caches coherent |
| Firmware.Firmware.PollContact | applications/operation.c:104-110 | the contact poll stops at the first matching reading or after 50 |
| Firmware.Firmware.ControlPorts | applications/operation.c:102-139 | the port commands drive pins and poll as the device model does |
| Firmware.Firmware.RelayStateSave | applications/operation.c:49-62 | read, compare, write once, poll ten times: exactly the device model's save |
| Firmware.Firmware.ControlSwitch | applications/operation.c:140-173 | flags, pulse, contact checks and save of a relay command |
| Firmware.Firmware.QueryPorts | applications/operation.c:68-74 | the port-state byte built bit by bit |
| Firmware.Firmware.QueryLamps | applications/operation.c:75-79 | the lamp-state byte built bit by bit |
| Firmware.Firmware.QueryRelay | applications/operation.c:80-82 | the contact as 0x10 or 0x01 |
| Firmware.Firmware.QueryResult | applications/operation.c:83-87 | the result byte built from the flags |
| Firmware.Firmware.SendBuffer | applications/handler.c:103-105 | checksum into the last byte and one write put exactly the frame of the buffer's code and payload on the bus |
| Firmware.Firmware.FuncYkQueryState | applications/handler.c:90-108 | 0x01 as in the device model |
| Firmware.Firmware.FuncYkControl | applications/handler.c:111-132 | 0x02 as in the device model |
| Firmware.Firmware.FuncYkModifyAddr | applications/handler.c:135-151 | 0x03 as in the device model, ending in a reset when the serial number matches |
| Firmware.Firmware.FuncYkReportState | applications/handler.c:154-172 | 0x04 as in the device model |
| Firmware.Firmware.FuncYkModifySn | applications/handler.c:175-202 | 0x07 as in the device model |
| Firmware.Firmware.FuncAvcQueryState | applications/handler.c:206-224 | 0x31 as in the device model |
| Firmware.Firmware.FuncAvcControlCommand | applications/handler.c:227-253 | 0x35 as in the device model |
| Firmware.Firmware.FuncAvcControlRequest | applications/handler.c:256-292 | 0x32 as in the device model, with the unconditional engage |
| Firmware.Firmware.FuncAvcModifyDevice | applications/handler.c:295-324 | 0x33 as in the device model, with the source's offsets |
| Firmware.Firmware.FuncAvcModifySn | applications/handler.c:327-355 | 0x37 as in the device model |
| Firmware.Firmware.FuncAvcProductionQuery | applications/handler.c:358-376 | 0x3F as in the device model |
| Firmware.Firmware.FuncColdQueryAll | applications/handler.c:380-398 | 0x21 as in the device model |
| Firmware.Firmware.FuncColdControl | applications/handler.c:401-428 | 0x25 as in the device model |
| Firmware.Firmware.FuncColdModifyTimeout | applications/handler.c:431-457 | 0x2A as in the device model |
| Firmware.Firmware.FuncColdModifyAddr | applications/handler.c:460-489 | 0x23 as in the device model |
| Firmware.Firmware.Dispatch | applications/protocol.c:94-102 | the call through the dispatch array runs the handler of the index |
| Firmware.Firmware.InstallFilter | applications/main.c:117-138 | the filter built from the mirror is the one for the stored address and type |
| Firmware.Firmware.RxCallback | applications/main.c:34-73 | read, parse, handle for every length code that fits the buffer: exactly the device model's step, old stack bytes included |
| Firmware.Firmware.Deliver | bsp/can_channel.c:96-110 | messages the filter rejects change nothing, the others reach the callback |
| Firmware.Firmware.ButtonPress | applications/main.c:90-107 | an AVC switch requests the opposite of its contact state; other types send nothing |
| Firmware.Firmware.RunInputs | applications/main.c:34-73 | over every run the firmware equals the device model and RAM copy and mirror stay coherent with the EEPROM |
| Firmware.Firmware.RunRequests | applications/config.c:45-106 | over every run of gets and modifies, failed writes included, RAM equals EEPROM and both refine the six-key map, and every get returns what the map holds at that moment |

## Left out

- RT-Thread kernel calls, device opening, semaphores, logging and pin modes: library code without a hard property here. Frames that arrive before `main` has installed its filter are not modelled.
- The at24cxx driver and the I2C bus: only the EEPROM assumptions above; read failures are not modelled.
- Late EEPROM commits in whole runs: in the device model only the read-back polls may see the previous record; what late commits do to two updates and to the serial-number commands is proved separately in `DelayedStore.dfy`.
- Preemption between the receive thread and the button thread: a message, a button press and a reset are atomic steps; the button's debouncing and its mutex are not modelled.
- Received messages with length code 14 or 15: they overrun the 16-byte buffer of `rx_cb` (`applications/main.c:42-43`), which is undefined behaviour, and are outside the runs. Codes 9 to 13 are in.
- The shell commands of applications/cmd/command.c: they change address, serial number and type without any frame and drive the lamp pins, which are the K1 port's pins, so they are outside the runs of `Runs.AddressSafety`, `Runs.PortsFollowCommands` and every other run theorem.
- The intended meaning of 0x33: it is modelled as written.
- Cold-lock power control, the cold-lock state byte and the commands 0x27 and 0x2F: their bodies are empty in the source.
- applications/operations.c, applications/device_init.c and applications/test.c: an older version not built with these headers.
- Integer return codes of the handlers: the source only logs them.
