/**
 * The boiler link (rootfs/app/opentherm.py): a 4-byte frame
 * `[0x00, b1, b2, (b1 + b2) & 0xFF]`, its encoder and decoder, the decoding
 * of the replies, and the connection state of the protocol and controller
 * objects.
 *
 * Bytes are integers in 0..255, and Python's shifts and masks on
 * non-negative integers are written as multiplication, division and
 * remainder by powers of two.  The serial port is abstracted: whether
 * opening it succeeds is a parameter, and the bytes the device would answer
 * are a parameter `reply`, of which a read of 4 bytes takes at most the first four.
 */
module OpenTherm {
  import opened Common

  type Byte = b: int | 0 <= b < 256

  // Message types.
  const ReadData := 0
  const WriteData := 1
  const InvalidData := 2
  const Reserved := 3

  // Data identifiers.
  const Status := 0
  const TSet := 1
  const TBoiler := 25

  /** `sum(data)`: the sum of the bytes. */
  function Sum(data: seq<Byte>): (total: nat)
    ensures total <= 255 * |data|
    ensures |data| == 2 ==> total == data[0] as int + data[1] as int
  {
    if data == [] then 0 else Sum(data[..|data| - 1]) + data[|data| - 1]
  }

  /** `sum(data) & 0xFF`: the byte sum modulo 256. */
  function Checksum(data: seq<Byte>): (c: Byte)
    ensures |data| == 2 ==> c == (data[0] as int + data[1] as int) % 256
  {
    Sum(data) % 256
  }

  /**
   * A general fact about `sum(data) & 0xFF`, beyond the two bytes the frame
   * checksums: the checksum of a concatenation is the sum of the checksums, modulo 256.
   */
  lemma {:induction false} ChecksumAppend(a: seq<Byte>, b: seq<Byte>)
    ensures Checksum(a + b) == (Checksum(a) + Checksum(b)) % 256
  {
    SumAppend(a, b);
    var x, y := Sum(a), Sum(b);
    assert x == (x / 256) * 256 + x % 256;
    assert y == (y / 256) * 256 + y % 256;
    assert x + y == (x / 256 + y / 256) * 256 + (x % 256 + y % 256);
    ModMultiple(x / 256 + y / 256, x % 256 + y % 256);
  }

  lemma ModMultiple(k: int, r: int)
    ensures (k * 256 + r) % 256 == r % 256
  {
    var q := r / 256;
    assert r == q * 256 + r % 256;
    assert k * 256 + r == (k + q) * 256 + r % 256;
  }

  lemma {:induction false} SumAppend(a: seq<Byte>, b: seq<Byte>)
    ensures Sum(a + b) == Sum(a) + Sum(b)
  {
    if b == [] {
      assert a + b == a;
    } else {
      var n := |b| - 1;
      assert (a + b)[..|a + b| - 1] == a + b[..n];
      SumAppend(a, b[..n]);
    }
  }

  /** Why `_create_message` refuses its input. */
  datatype EncodeError =
    | PackRange   // `struct.pack('>H', value)` with a value outside 0..65535
    | ByteRange   // `bytes([...])` with an element above 255

  /**
   * `_create_message(msgType, dataId, dataValue)`.  The header byte
   * `(msgType << 6) | ((dataId >> 8) & 0x3F)` and the low identifier byte
   * `dataId & 0xFF` are each shifted left by 8 and combined with a value byte,
   * so a frame exists only when both are zero.
   */
  function CreateMessage(msgType: nat, dataId: nat, dataValue: int): (r: Result<seq<Byte>, EncodeError>)
    ensures r == Err(PackRange) <==> !(0 <= dataValue < 65536)
    ensures r.Ok? <==> 0 <= dataValue < 65536 && msgType == 0 && dataId % 16384 == 0
    ensures r == Err(ByteRange) <==> 0 <= dataValue < 65536 && !(msgType == 0 && dataId % 16384 == 0)
    ensures r.Ok? ==> |r.value| == 4 && r.value[0] == 0 && r.value[1] as int * 256 + r.value[2] as int == dataValue
                      && r.value[3] == (r.value[1] as int + r.value[2] as int) % 256
  {
    if !(0 <= dataValue < 65536) then Err(PackRange)
    else
      var msb := msgType * 64 + (dataId / 256) % 64;
      var lsb := dataId % 256;
      var msbData := msb * 256 + dataValue / 256;
      var lsbData := lsb * 256 + dataValue % 256;
      HeaderBytesZero(msgType, dataId);
      if msbData > 255 || lsbData > 255 then Err(ByteRange)
      else Ok([0, msbData, lsbData, Checksum([msbData, lsbData])])
  }

  /** Both header bytes are zero exactly for message type 0 and identifiers that are multiples of 2^14. */
  lemma HeaderBytesZero(msgType: nat, dataId: nat)
    ensures msgType * 64 + (dataId / 256) % 64 == 0 && dataId % 256 == 0
            <==> msgType == 0 && dataId % 16384 == 0
  {
    var q := dataId / 256;
    assert dataId == q * 256 + dataId % 256;
    assert q == (q / 64) * 64 + q % 64;
    if dataId % 16384 == 0 {
      var k := dataId / 16384;
      assert dataId == k * 16384;
      assert dataId == (k * 64) * 256 + 0;
      assert q == k * 64;
    }
    if q % 64 == 0 && dataId % 256 == 0 {
      assert dataId == (q / 64) * 16384;
    }
  }

  /** The three fields `_parse_message` extracts. */
  datatype Fields = Fields(msgType: int, dataId: int, dataValue: int)

  /**
   * `_parse_message`: refuses anything but 4 bytes whose last byte is the
   * checksum of the middle two; the first byte is never looked at.
   */
  function ParseMessage(msg: seq<Byte>): (r: Option<Fields>)
    ensures r.Some? <==> |msg| == 4 && msg[3] == (msg[1] as int + msg[2] as int) % 256
    ensures r.Some? ==> 0 <= r.value.msgType < 4
    ensures r.Some? ==> 0 <= r.value.dataId < 16384 && r.value.dataId % 256 == msg[2]
    ensures r.Some? ==> 0 <= r.value.dataValue < 65536 && r.value.dataValue % 16 == 0
  {
    if |msg| != 4 then None
    else if Checksum(msg[1..3]) != msg[3] then None
    else
      var msb: int := msg[1];
      var lsb: int := msg[2];
      Some(Fields((msb / 64) % 4, (msb % 64) * 256 + lsb, (msb % 16) * 4096 + (lsb % 256) * 16))
  }

  /** The first byte of a frame is ignored by the decoder. */
  lemma ParseIgnoresStartByte(msg: seq<Byte>, start: Byte)
    requires |msg| == 4
    ensures ParseMessage([start] + msg[1..]) == ParseMessage(msg)
  {
    assert ([start] + msg[1..])[1..3] == msg[1..3];
  }

  /**
   * Every frame the encoder builds is accepted by the decoder, which reads the
   * value's bits back as type, identifier and a shifted value.
   */
  lemma {:induction false} ParseAcceptsCreated(msgType: nat, dataId: nat, dataValue: int)
    requires CreateMessage(msgType, dataId, dataValue).Ok?
    ensures ParseMessage(CreateMessage(msgType, dataId, dataValue).value)
            == Some(Fields(dataValue / 16384, dataValue % 16384, dataValue % 4096 * 16))
  {
    var frame := CreateMessage(msgType, dataId, dataValue).value;
    ValueBits(frame[1], frame[2]);
  }

  /** The bit fields `_parse_message` reads from the bytes `hi` and `lo` of the 16-bit value `hi * 256 + lo`. */
  lemma ValueBits(hi: Byte, lo: Byte)
    ensures var v := hi * 256 + lo;
            (hi / 64) % 4 == v / 16384
            && (hi % 64) * 256 + lo == v % 16384
            && (hi % 16) * 4096 + lo * 16 == v % 4096 * 16
  {
    var v := hi as int * 256 + lo as int;
    var top, low6 := hi / 64, hi % 64;
    var tail14 := low6 * 256 + lo;
    assert 0 <= tail14 < 16384 && v == top * 16384 + tail14;
    assert v / 16384 == top && v % 16384 == tail14;
    var top4, low4 := hi / 16, hi % 16;
    var tail12 := low4 * 256 + lo;
    assert 0 <= tail12 < 4096 && v == top4 * 4096 + tail12;
    assert v / 4096 == top4 && v % 4096 == tail12;
  }

  /** The status request is the one request of the link that encodes, and it decodes back to itself. */
  lemma StatusRequestRoundTrip()
    ensures CreateMessage(ReadData, Status, 0) == Ok([0, 0, 0, 0])
    ensures ParseMessage([0, 0, 0, 0]) == Some(Fields(ReadData, Status, 0))
  {
    ParseAcceptsCreated(ReadData, Status, 0);
  }

  /** The six flags `get_status` reports. */
  datatype BoilerStatus = BoilerStatus(
    chEnabled: bool, dhwEnabled: bool, coolingEnabled: bool,
    otcActive: bool, ch2Enabled: bool, fault: bool)

  /** The flags as the masks 0x01, 0x02, 0x04, 0x08, 0x10 and 0x80 of `value` select them. */
  function StatusFlags(value: nat): (flags: BoilerStatus)
    ensures value % 16 == 0 ==> !flags.chEnabled && !flags.dhwEnabled && !flags.coolingEnabled && !flags.otcActive
    ensures flags.ch2Enabled ==> value >= 16
    ensures flags.fault ==> value >= 128
  {
    BoilerStatus(value % 2 == 1, value / 2 % 2 == 1, value / 4 % 2 == 1,
                 value / 8 % 2 == 1, value / 16 % 2 == 1, value / 128 % 2 == 1)
  }

  /** Only the low byte of the value decides the flags: every mask lies within 0xFF. */
  lemma StatusFlagsLowByte(value: nat)
    ensures StatusFlags(value) == StatusFlags(value % 256)
  {
    var q, r := value / 256, value % 256;
    MaskOfLowByte(value, 1, q * 128);
    MaskOfLowByte(value, 2, q * 64);
    MaskOfLowByte(value, 4, q * 32);
    MaskOfLowByte(value, 8, q * 16);
    MaskOfLowByte(value, 16, q * 8);
    MaskOfLowByte(value, 128, q);
  }

  /** When `k * 2 * e` is the part of `value` above its low byte, bit `k` of `value` is bit `k` of the low byte. */
  lemma MaskOfLowByte(value: nat, k: nat, e: int)
    requires k > 0 && value == (e * 2) * k + value % 256
    ensures value / k % 2 == value % 256 / k % 2
  {
    var r := value % 256;
    DivideExactly(value, k, e * 2 + r / k, r % k);
  }

  /** Division is determined by any quotient and remainder that recompose the dividend. */
  lemma DivideExactly(n: int, k: int, a: int, b: int)
    requires k > 0 && n == a * k + b && 0 <= b < k
    ensures n / k == a
  {
    var t, u := n / k, n % k;
    assert n == t * k + u && 0 <= u < k;
    if a < t {
      assert (t - a) * k == b - u;
      AtLeastOnce(t - a, k);
    } else if a > t {
      assert (a - t) * k == u - b;
      AtLeastOnce(a - t, k);
    }
  }

  lemma AtLeastOnce(x: int, k: int)
    requires x >= 1 && k > 0
    ensures x * k >= k
  {
    assert x * k == (x - 1) * k + k;
  }

  /**
   * On a decoded value the four low flags are always clear, CH2 is bit 0 of
   * the second byte and the fault flag is its bit 3.
   */
  lemma StatusFlagsOfFrame(msg: seq<Byte>)
    requires ParseMessage(msg).Some?
    ensures var flags := StatusFlags(ParseMessage(msg).value.dataValue);
            !flags.chEnabled && !flags.dhwEnabled && !flags.coolingEnabled && !flags.otcActive
            && flags.ch2Enabled == (msg[2] % 2 == 1) && flags.fault == (msg[2] / 8 % 2 == 1)
  {
    var a: int, b: int := msg[1] % 16, msg[2];
    assert ParseMessage(msg).value.dataValue == a * 4096 + b * 16;
    LowFlagsClear(a * 256 + b);
    Bit4(a, b);
    Bit7(a, b);
  }

  /** A multiple of 16 has its four low bits clear, and bit 4 is the low bit of the quotient. */
  lemma LowFlagsClear(w: nat)
    ensures var v := w * 16;
            v % 2 == 0 && v / 2 % 2 == 0 && v / 4 % 2 == 0 && v / 8 % 2 == 0 && v / 16 % 2 == w % 2
  {
    var v := w * 16;
    assert v / 2 == w * 8 && v / 4 == w * 4 && v / 8 == w * 2 && v / 16 == w;
  }

  /** Bit 4 of `a * 4096 + b * 16` is bit 0 of `b`. */
  lemma Bit4(a: nat, b: nat)
    ensures (a * 4096 + b * 16) / 16 % 2 == b % 2
  {
    var w := a * 256 + b;
    assert a * 4096 + b * 16 == w * 16;
    assert w == (a * 128) * 2 + b;
  }

  /** Bit 7 of `a * 4096 + b * 16` is bit 3 of the byte `b`. */
  lemma Bit7(a: nat, b: nat)
    requires b < 256
    ensures (a * 4096 + b * 16) / 128 % 2 == b / 8 % 2
  {
    var q := a * 32 + b / 8;
    assert a * 4096 + b * 16 == q * 128 + (b % 8) * 16;
    assert q == (a * 16) * 2 + b / 8;
  }

  /** The first `n` bytes of what the device sends, or fewer when it sends fewer. */
  function Read(available: seq<Byte>, n: nat): (r: seq<Byte>)
    ensures |r| <= n && r <= available
    ensures |available| >= n ==> |r| == n
  {
    if |available| <= n then available else available[..n]
  }

  /** The decoding part of `set_target_temperature`: a reply is an acknowledgement when it decodes. */
  function TargetAcknowledged(response: seq<Byte>): (acknowledged: bool)
    ensures acknowledged <==> |response| == 4 && response[3] == (response[1] as int + response[2] as int) % 256
  {
    response != [] && ParseMessage(response).Some?
  }

  /**
   * The decoding part of `get_boiler_temperature`: the value's upper twelve
   * bits in tenths of a degree, for a reply with identifier 25.
   */
  function BoilerTemperatureReply(response: seq<Byte>): (temperature: Option<real>)
    ensures temperature.Some? <==> |response| == 4 && response[1] % 64 == 0 && response[2] == TBoiler
                                   && response[3] == (response[1] as int + TBoiler) % 256
    ensures temperature.Some? ==> temperature.value == 2.5
  {
    if response == [] then None
    else match ParseMessage(response)
      case None => None
      case Some(fields) =>
        if fields.dataId == TBoiler then
          assert fields.dataValue / 16 == 25 by {
            assert response[1] % 16 == 0 by {
              assert response[1] % 64 == 0;
            }
          }
          Some((fields.dataValue / 16) as real / 10.0)
        else None
  }

  /** The decoding part of `get_status`: the flags of a reply with identifier 0. */
  function StatusReply(response: seq<Byte>): (status: Option<BoilerStatus>)
    ensures status.Some? <==> |response| == 4 && response[1] % 64 == 0 && response[2] == Status
                              && response[3] == response[1] % 256
    ensures status.Some? ==> status.value == BoilerStatus(false, false, false, false, false, false)
  {
    if response == [] then None
    else match ParseMessage(response)
      case None => None
      case Some(fields) =>
        if fields.dataId == Status then
          assert fields.dataValue == 0 by {
            assert response[1] % 16 == 0 by {
              assert response[1] % 64 == 0;
            }
          }
          Some(StatusFlags(fields.dataValue))
        else None
  }

  /** Python's `int(x)`: the integer part, rounding toward zero. */
  function TruncateToInt(x: real): (n: int)
    ensures x >= 0.0 ==> n as real <= x < n as real + 1.0
    ensures x < 0.0 ==> n as real - 1.0 < x <= n as real
  {
    if x < 0.0 then -((-x).Floor) else x.Floor
  }

  /** `int(temperature * 10) & 0xFFFF`: whole tenths, wrapped into 16 bits. */
  function SetpointValue(temperature: real): (value: int)
    ensures 0 <= value < 65536
    ensures (value - TruncateToInt(temperature * 10.0)) % 65536 == 0
  {
    TruncateToInt(temperature * 10.0) % 65536
  }

  /** No TSET write and no boiler-temperature read can be encoded: both raise in `bytes()`. */
  lemma RequestsThatNeverEncode(temperature: real)
    ensures CreateMessage(WriteData, TSet, SetpointValue(temperature)) == Err(ByteRange)
    ensures CreateMessage(ReadData, TBoiler, 0) == Err(ByteRange)
  {
  }

  /** The serial port object: absent, or present and open or closed. */
  datatype SerialHandle = NoHandle | Handle(isOpen: bool)

  /** The exceptions a request can raise. */
  datatype LinkError =
    | NotConnected          // `ConnectionError`: no serial port, or a closed one
    | OpenFailed            // opening the serial port raised
    | Encode(reason: EncodeError)

  /** The request side of the link (class OpenThermProtocol). */
  class OpenThermProtocol {
    const serialPort: string
    const baudrate: int
    var serial: SerialHandle

    constructor (serialPort: string, baudrate: int := 9600)
      ensures this.serialPort == serialPort && this.baudrate == baudrate
      ensures serial == NoHandle
    {
      this.serialPort := serialPort;
      this.baudrate := baudrate;
      serial := NoHandle;
    }

    /** `self.serial and self.serial.is_open`. */
    predicate IsOpen()
      reads this
      ensures IsOpen() <==> serial == Handle(true)
    {
      serial.Handle? && serial.isOpen
    }

    /** Opens the port; `opens` says whether the operating system lets it. */
    method Connect(opens: bool) returns (r: Result<(), LinkError>)
      modifies this
      ensures opens ==> r == Ok(()) && serial == Handle(true)
      ensures !opens ==> r == Err(OpenFailed) && serial == old(serial)
    {
      if !opens {
        return Err(OpenFailed);
      }
      serial := Handle(true);
      return Ok(());
    }

    /** Closes the port when there is an open one. */
    method Disconnect()
      modifies this
      ensures !IsOpen()
      ensures serial == if old(IsOpen()) then Handle(false) else old(serial)
    {
      if IsOpen() {
        serial := Handle(false);
      }
    }

    /** Sends a TSET write for `temperature`; as written, the frame is never built. */
    method SetTargetTemperature(temperature: real, reply: seq<Byte>) returns (r: Result<bool, LinkError>)
      ensures !IsOpen() ==> r == Err(NotConnected)
      ensures IsOpen() ==> r == Err(Encode(ByteRange))
    {
      if !IsOpen() {
        return Err(NotConnected);
      }
      var value := SetpointValue(temperature);
      var frame := CreateMessage(WriteData, TSet, value);
      if frame.Err? {
        return Err(Encode(frame.error));
      }
      assert false;
    }

    /** Reads the boiler water temperature; as written, the request is never built. */
    method GetBoilerTemperature(reply: seq<Byte>) returns (r: Result<Option<real>, LinkError>)
      ensures !IsOpen() ==> r == Err(NotConnected)
      ensures IsOpen() ==> r == Err(Encode(ByteRange))
    {
      if !IsOpen() {
        return Err(NotConnected);
      }
      var frame := CreateMessage(ReadData, TBoiler, 0);
      if frame.Err? {
        return Err(Encode(frame.error));
      }
      assert false;
    }

    /** Sends the status request `[0, 0, 0, 0]` and decodes the first four bytes of the reply. */
    method GetStatus(reply: seq<Byte>) returns (r: Result<Option<BoilerStatus>, LinkError>)
      ensures !IsOpen() ==> r == Err(NotConnected)
      ensures IsOpen() ==> r == Ok(StatusReply(Read(reply, 4)))
    {
      if !IsOpen() {
        return Err(NotConnected);
      }
      var frame := CreateMessage(ReadData, Status, 0);
      if frame.Err? {
        assert false;
      }
      var response := Read(reply, 4);
      return Ok(StatusReply(response));
    }
  }

  /** The controller that owns the link and remembers whether it is up (class OpenThermController). */
  class OpenThermController {
    const protocol: OpenThermProtocol
    var connected: bool

    constructor (serialPort: string, baudrate: int := 9600)
      ensures fresh(protocol) && protocol.serialPort == serialPort && protocol.baudrate == baudrate
      ensures protocol.serial == NoHandle && !connected
    {
      protocol := new OpenThermProtocol(serialPort, baudrate);
      connected := false;
    }

    /** The controller only believes in a link whose port is open. */
    predicate Valid()
      reads this, protocol
    {
      connected ==> protocol.IsOpen()
    }

    /** Connects; the controller is connected exactly when opening succeeded. */
    method Start(opens: bool)
      modifies this, protocol
      ensures connected == opens && Valid()
      ensures protocol.serial == if opens then Handle(true) else old(protocol.serial)
    {
      var result := protocol.Connect(opens);
      connected := result.Ok?;
    }

    /** Disconnects when connected; afterwards the controller is never connected. */
    method Stop()
      modifies this, protocol
      ensures !connected && Valid()
      ensures old(connected) ==> protocol.serial == if old(protocol.IsOpen()) then Handle(false) else old(protocol.serial)
      ensures !old(connected) ==> protocol.serial == old(protocol.serial)
    {
      if connected {
        protocol.Disconnect();
        connected := false;
      }
    }

    /** Without a link: False and no I/O; with one: whatever the TSET write does. */
    method SetControlTemperature(targetTemp: real, currentTemp: real, reply: seq<Byte>)
      returns (r: Result<bool, LinkError>)
      ensures !connected ==> r == Ok(false)
      ensures connected ==> r == if protocol.IsOpen() then Err(Encode(ByteRange)) else Err(NotConnected)
    {
      if !connected {
        return Ok(false);
      }
      r := protocol.SetTargetTemperature(targetTemp, reply);
    }

    /** Without a link: None and no I/O; with one, the temperature read raises first. */
    method GetBoilerStatus(temperatureReply: seq<Byte>, statusReply: seq<Byte>)
      returns (r: Result<Option<BoilerStatus>, LinkError>)
      ensures !connected ==> r == Ok(None)
      ensures connected ==> r == if protocol.IsOpen() then Err(Encode(ByteRange)) else Err(NotConnected)
    {
      if !connected {
        return Ok(None);
      }
      var temperature := protocol.GetBoilerTemperature(temperatureReply);
      if temperature.Err? {
        return Err(temperature.error);
      }
      assert false;
    }
  }
}
