# MultiStat core in Dafny

MultiStat is a multi-room thermostat. It keeps a temperature reading per room.
Each ventilation (HRV) valve of a room gets its own PID controller, which turns
the room's temperature error into a valve position between 0 and 100 %. Out of
all rooms, the one that is coldest relative to its target is picked to drive the
boiler. The boiler is reached over a serial link with a small 4-byte frame codec
modelled on OpenTherm.

This project models three parts of the system:

- `pid_controller.dfy` (module `PidControl`). `PidState` is the controller's state
  as a value. `UpdateStep` and `UpdateRun` give the meaning of one `update` call
  and of a series of calls. The class `PIDController` has the source's fields and
  methods, and each method is proved against those functions.
- `room_manager.dfy` (module `RoomControl`):
  - the classes `HRVValve`, `Room` and `RoomManager`;
  - the room-selection policy, as the functions `HeatingRooms`, `MaxByDifference`
    and `HighestDifference`, plus the lemma that the chosen room is the first one
    with the largest difference;
  - the per-valve PID step, as the function `ValveStep`;
  - loading from configuration, updating a temperature, recalculating valve
    positions, and choosing the control temperatures.
- `opentherm.dfy` (module `OpenTherm`):
  - the checksum, frame creation and frame parsing;
  - the decoding of the three replies (set-point acknowledgement, boiler
    temperature, status flags);
  - the classes `OpenThermProtocol` (serial handle and requests) and
    `OpenThermController` (connected flag, start and stop, the two high-level
    calls).
- `common.dfy` (module `Common`) holds `Option` and `Result`.

The model follows what the code does. Where the code departs from the intended
protocol, the model keeps the code's behaviour:

- `_create_message` first packs the data value with `struct.pack('>H', ...)`,
  which raises for a value outside 0..65535. It then puts `(msb << 8) | byte`
  and `(lsb << 8) | byte` into `bytes([...])`, where `msb` and `lsb` are the
  two header bytes. Those values only fit in a byte when both header bytes are
  zero, meaning message type 0 and a data identifier that is a multiple of
  16384. For every other in-range value, `bytes()` raises `ValueError`.
- Because of this, the TSET write (`set_target_temperature`) and the boiler
  temperature read (`get_boiler_temperature`) always raise before any I/O. Of
  the three requests, only the status request `[0, 0, 0, 0]` is ever sent.
  `CreateMessage`, `RequestsThatNeverEncode` and the protocol methods state this.
- Their reply decoding is kept as the pure functions `TargetAcknowledged` and
  `BoilerTemperatureReply`. The status decoding is `StatusReply`.
- `_parse_message` takes the data value's bits from the header bytes: bits 12-15
  come from byte 1's low nibble, and bits 4-11 come from byte 2. For that
  reason, any decoded boiler temperature is 2.5 and any decoded status has every
  flag clear (`BoilerTemperatureReply`, `StatusReply`, `StatusFlagsOfFrame`).

Clock readings (`time.time()`) are a `now` parameter. Whether the serial port
opens is a `bool` parameter. The bytes the device answers with are a sequence
parameter. Floating point numbers are modelled as `real`.

## Model

| member | source | states |
|---|---|---|
| PidControl.Clamp | multistat/rootfs/app/pid_controller.py:86-88 | with ordered limits the result lies between them; an output already in range is returned unchanged; one below the lower limit gives the lower limit, and one above the upper limit gives the upper limit; with inverted limits the lower limit wins |
| PidControl.Initial | multistat/rootfs/app/pid_controller.py:14-34 | a new controller has no previous time or error and a zero integral, and satisfies the state invariant (previous time present exactly when previous error is) |
| PidControl.UpdateStep | multistat/rootfs/app/pid_controller.py:42-84 | one update keeps the invariant and the settings and always records a time. The output is within ordered limits. On the first call, or when time has not advanced, the output is the clamped proportional term and the integral does not change. When time advances, the integral grows by error times elapsed time, and the time and error are recorded. When a non-advancing call follows an earlier one, the state is unchanged |
| PidControl.UpdateRun | multistat/rootfs/app/pid_controller.py:42-84 | a series of updates gives one output per sample and never changes the gains, set-point or limits |
| PidControl.ProportionalOnlyRun | multistat/rootfs/app/pid_controller.py:53-84 | with zero integral and derivative gains, every output of a series is the clamped proportional term of its own sample, whatever the timing |
| PidControl.RunOutputsWithinLimits | multistat/rootfs/app/pid_controller.py:84-88 | with ordered limits, every output of any series of updates lies within the limits |
| PidControl.PIDController.constructor | multistat/rootfs/app/pid_controller.py:14-34 | defaults 1.0 / 0.1 / 0.05, set-point 0 and limits (0, 100); the state is the initial state for the given settings |
| PidControl.PIDController.SetSetpoint | multistat/rootfs/app/pid_controller.py:36-40 | only the set-point changes, and the integral is reset to 0 |
| PidControl.PIDController.Update | multistat/rootfs/app/pid_controller.py:42-84 | the new state and the returned output are exactly those of `UpdateStep` on the old state, so every property of `UpdateStep` holds for the method |
| PidControl.PIDController.Reset | multistat/rootfs/app/pid_controller.py:90-95 | forgets the previous time, error and integral and keeps the gains, set-point and limits |
| PidControl.PIDController.SetTunings | multistat/rootfs/app/pid_controller.py:97-102 | only the three gains change |
| RoomControl.HRVValve.constructor | rootfs/app/room_manager.py:12-34 | position 0 and a fresh controller with the valve's gains, set-point 0 and limits (0, 100) |
| RoomControl.Room.constructor | rootfs/app/room_manager.py:37-45 | a room starts without a temperature reading |
| RoomControl.Room.TemperatureDifference | rootfs/app/room_manager.py:47-51 | 0 without a reading; otherwise the absolute distance between target and reading, never negative |
| RoomControl.Room.NeedsHeating | rootfs/app/room_manager.py:53-57 | true exactly when there is a reading below the target, and then the difference is positive |
| RoomControl.Eligible | rootfs/app/room_manager.py:101 | the filter condition holds exactly when the room has a reading below its target; the separate presence test adds nothing |
| RoomControl.HeatingRooms | rootfs/app/room_manager.py:98-102 | every kept room comes from the input and is eligible, every eligible room is kept, and the result is empty exactly when no room qualifies |
| RoomControl.EligiblePositions | rootfs/app/room_manager.py:99-102 | the positions of the eligible rooms: strictly increasing, each pointing at an eligible room, and containing every eligible room's position |
| RoomControl.HeatingRoomsInOrder | rootfs/app/room_manager.py:99-102 | the filter's k-th room is the room at the k-th of the strictly increasing eligible positions, and every eligible position is among them, so the filter keeps each eligible room exactly once and in list order |
| RoomControl.MaxByDifference | rootfs/app/room_manager.py:107-108 | the chosen room is one of the candidates, its difference is at least every candidate's, and every candidate before its first occurrence has a strictly smaller difference (the first maximum, as `max` returns) |
| RoomControl.HighestDifference | rootfs/app/room_manager.py:93-108 | None exactly when no room has a reading below its target; otherwise an eligible room of the list whose difference is at least every eligible room's |
| RoomControl.HighestDifferenceIsFirstMax | rootfs/app/room_manager.py:93-108 | the selection is None exactly when no room has a reading below its target; otherwise it is the first such room whose difference is strictly greater than that of every earlier such room and at least that of every later one |
| RoomControl.FirstNamed | rootfs/app/room_manager.py:110-117 | finds the index of the first room with the name, or None exactly when no room has it |
| RoomControl.ValveStep | rootfs/app/room_manager.py:127-137 | after a valve step the controller has set-point 0, the same gains and limits, a recorded time, and an integral of the error times elapsed time (or 0); the position lies in 0..100 and is the controller's output when its limits are (0, 100) |
| RoomControl.LoadValves | rootfs/app/room_manager.py:73-81 | one fresh valve per configuration entry with the configured or default gains, position 0 and a fresh, valid controller; no two valves share a controller |
| RoomControl.NewRoom | rootfs/app/room_manager.py:72-89 | a fresh room with the configured fields, an empty heat-recovery entity and no valves by default, no reading, and one fresh valve per configured valve with the configured or default gains, position 0 and a fresh, valid controller; its valves share no controller |
| RoomControl.RecalculateValve | rootfs/app/room_manager.py:127-137 | the valve's controller state and position become those of `ValveStep` on the old controller state |
| RoomControl.RoomManager.constructor | rootfs/app/room_manager.py:63-66 | the manager holds one fresh room per configuration entry, in order, each loaded from its entry, with fresh valves and fresh controllers, and is valid |
| RoomControl.RoomManager.LoadRooms | rootfs/app/room_manager.py:68-91 | replaces the rooms by one fresh room per configuration entry, in order, each loaded from its entry with fresh valves and fresh controllers, and no controller shared between valves |
| RoomControl.RoomManager.GetRoomWithHighestDifference | rootfs/app/room_manager.py:93-108 | the room to heat is None exactly when no room has a reading below its target; otherwise it is the first room of maximal difference |
| RoomControl.RoomManager.UpdateRoomTemperature | rootfs/app/room_manager.py:110-117 | sets the reading of the first room with that name and leaves every other room untouched; nothing changes when the name is unknown |
| RoomControl.RoomManager.CalculateHrvPositions | rootfs/app/room_manager.py:119-142 | without a reading nothing changes; otherwise every valve of the room takes the `ValveStep` of its old controller state for the error target minus reading, and the valves of other rooms are untouched |
| RoomControl.RoomManager.GetControlTemperatures | rootfs/app/room_manager.py:144-152 | None exactly when no room has a reading below its target; otherwise the (target, reading) pair of the first room of maximal difference, with reading below target |
| OpenTherm.Sum | rootfs/app/opentherm.py:57 | `sum(data)` is at most 255 per byte, and for two bytes it is their sum |
| OpenTherm.Checksum | rootfs/app/opentherm.py:55-57 | a byte; for the two checksummed bytes it is their sum modulo 256 |
| OpenTherm.ChecksumAppend | rootfs/app/opentherm.py:55-57 | a general fact about `sum(data) & 0xFF`, not used by the frame code, which only checksums two bytes: the checksum of a concatenation is the sum of the parts' checksums modulo 256 |
| OpenTherm.CreateMessage | rootfs/app/opentherm.py:59-71 | a value outside 0..65535 fails in packing; otherwise the frame is built exactly when the header byte is zero (type 0, identifier a multiple of 16384), and then it is 4 bytes: 0, the big-endian value, and the checksum of the value bytes; every other case fails in `bytes()` |
| OpenTherm.HeaderBytesZero | rootfs/app/opentherm.py:62-66 | both header bytes are zero exactly when the type is 0 and the identifier is a multiple of 16384 |
| OpenTherm.ParseMessage | rootfs/app/opentherm.py:73-90 | accepts exactly the 4-byte frames whose last byte is the checksum of bytes 1-2; the type is below 4, the identifier below 16384 with byte 2 as its low byte, and the value below 65536 with its low four bits clear |
| OpenTherm.ParseIgnoresStartByte | rootfs/app/opentherm.py:75-90 | parsing never looks at the start byte |
| OpenTherm.ParseAcceptsCreated | rootfs/app/opentherm.py:59-90 | every frame that is created parses, into the fields read back from the value's bits; the original type and identifier are not recovered |
| OpenTherm.StatusRequestRoundTrip | rootfs/app/opentherm.py:141 | the status request is the frame [0, 0, 0, 0], and it parses back to type 0, identifier 0, value 0 |
| OpenTherm.StatusFlags | rootfs/app/opentherm.py:151-158 | the masks 0x01 to 0x08 all read clear on a multiple of 16; the CH2 flag needs a value of at least 16 and the fault flag one of at least 128 |
| OpenTherm.StatusFlagsLowByte | rootfs/app/opentherm.py:151-158 | every mask lies within the low byte, so the flags of a value are those of its low byte |
| OpenTherm.StatusFlagsOfFrame | rootfs/app/opentherm.py:86-90 | on any parsed frame the four low status flags are clear, the second-circuit flag is bit 0 of byte 2, and the fault flag is bit 3 of byte 2 |
| OpenTherm.Read | rootfs/app/opentherm.py:105 | a read returns a prefix of the device's bytes, at most the requested number, and exactly that many when enough are available |
| OpenTherm.TargetAcknowledged | rootfs/app/opentherm.py:104-113 | a set-point reply counts as acknowledged exactly when it is a 4-byte frame with a correct checksum |
| OpenTherm.BoilerTemperatureReply | rootfs/app/opentherm.py:124-134 | a temperature is returned exactly for a valid frame with byte 2 equal to 25 and byte 1 a multiple of 64, and it is then 2.5 |
| OpenTherm.StatusReply | rootfs/app/opentherm.py:145-160 | flags are returned exactly for a valid frame with byte 2 equal to 0 and byte 1 a multiple of 64, and then all flags are clear |
| OpenTherm.TruncateToInt | rootfs/app/opentherm.py:98 | the integer part of a real, rounded toward zero |
| OpenTherm.SetpointValue | rootfs/app/opentherm.py:98 | the set-point is a 16-bit value congruent modulo 65536 to the truncated number of tenths |
| OpenTherm.RequestsThatNeverEncode | rootfs/app/opentherm.py:98-120 | for every temperature, the TSET write frame and the boiler-temperature request fail with a byte-range error |
| OpenTherm.OpenThermProtocol.constructor | rootfs/app/opentherm.py:27-31 | keeps port and baud rate (default 9600), with no serial handle |
| OpenTherm.OpenThermProtocol.IsOpen | rootfs/app/opentherm.py:94 | the link counts as open exactly when there is a serial handle and it is open |
| OpenTherm.OpenThermProtocol.Connect | rootfs/app/opentherm.py:33-47 | on success the handle is open; on failure the error is reported and the handle is unchanged |
| OpenTherm.OpenThermProtocol.Disconnect | rootfs/app/opentherm.py:49-53 | afterwards the port is not open; only an open handle is closed |
| OpenTherm.OpenThermProtocol.SetTargetTemperature | rootfs/app/opentherm.py:92-113 | a connection error without an open port; otherwise always the byte-range error from building the frame |
| OpenTherm.OpenThermProtocol.GetBoilerTemperature | rootfs/app/opentherm.py:115-134 | a connection error without an open port; otherwise always the byte-range error from building the request |
| OpenTherm.OpenThermProtocol.GetStatus | rootfs/app/opentherm.py:136-160 | a connection error without an open port; otherwise the decoding of the first four reply bytes |
| OpenTherm.OpenThermController.constructor | rootfs/app/opentherm.py:166-169 | a fresh protocol for the port and baud rate, not connected |
| OpenTherm.OpenThermController.Start | rootfs/app/opentherm.py:171-179 | connected exactly when the port opened, and connected only with an open port |
| OpenTherm.OpenThermController.Stop | rootfs/app/opentherm.py:181-186 | never connected afterwards; the port is closed only when the controller was connected |
| OpenTherm.OpenThermController.SetControlTemperature | rootfs/app/opentherm.py:188-195 | False without a link; otherwise the outcome of the TSET write, which is always an error |
| OpenTherm.OpenThermController.GetBoilerStatus | rootfs/app/opentherm.py:197-207 | None without a link; otherwise the error raised by the boiler-temperature request, before the status is read |

## Left out

- Clock: every `time.time()` is a `now` parameter. `CalculateHrvPositions` uses one `now` for all valves of a room, while the code reads the clock once per valve.
- Floating point: values are exact reals, so rounding, NaN and infinities are not modelled. `int(temperature * 10)` is exact truncation of the real product.
- Serial I/O: opening the port is a success flag, and the device's answer is a byte sequence parameter. The port settings (byte size, parity, stop bits, timeout), `write`, `time.sleep` and logging are not modelled.
- Exception types: raised exceptions are modelled as `Err` results (`LinkError`, `EncodeError`). `ConnectionError` is `NotConnected`, the `ValueError` from `bytes()` is `ByteRange`, and the `struct.error` from packing is `PackRange`. `start` catches the opening failure, as the code does.
- Missing required configuration keys (`name`, `target_temp`, `current_temp_sensor`, `valve_entity`): the configuration datatypes always hold them, so the `KeyError` path is not modelled.
- Repeated `connect` while a port is open: the old port object is replaced, as in the code, but the leaked operating-system handle is not modelled.
- `get_boiler_status`: the step that adds the temperature to the status dictionary is never reached, because the temperature request raises first. The model proves this and does not model the merge.
- `set_target_temperature` and `get_boiler_temperature` after the frame is built: this code is unreachable, so its reply decoding is kept only as the functions `TargetAcknowledged` and `BoilerTemperatureReply`.
- RoomControl.RoomManager.CalculateHrvPositions: requires that the room's valves do not share a controller, a property loading guarantees. Its promise about other rooms is stated only when the manager's rooms are valid and the room is one of them, since Python objects may alias otherwise.
- RoomControl.RoomManager.LoadRooms: builds the new list locally and assigns it once, instead of appending to `self.rooms` item by item. Nothing reads the list in between, so the outcome is the same.
- Python truthiness: a `Room` object and a parsed tuple are always truthy, so those tests are modelled as presence checks. The empty reply `b""` is handled by the explicit emptiness check.
- The add-on entry point, the Home Assistant integration and the main control loop are not part of this model.
