/**
 The bit-level logic of one single-shot conversion on the ADS1115 analog
 to digital converter: the gain-name lookup, the channel-to-multiplexer map,
 the packing of the configuration register, and the decoding of the
 big-endian two's-complement conversion result. The I2C bus is an oracle:
 the byte counts its `write` and `read` calls report and the two bytes read.
 */
module ADS1115 {

  /** The gain settings the configuration file may name, indexed by their 3-bit PGA code. */
  const GainNames: seq<string> :=
    ["GAIN_6144MV", "GAIN_4096MV", "GAIN_2048MV", "GAIN_1024MV", "GAIN_512MV", "GAIN_256MV"]

  /** A byte as the bus delivers it. */
  newtype Byte = x: int | 0 <= x < 256

  /** Rate code for 128 samples per second. */
  const Rate128: bv8 := 4

  /** Register pointer values. */
  const RegConversion: bv8 := 0
  const RegConfig: bv8 := 1

  /** `gain_to_int`: the PGA code a gain name stands for, or -1 for any other string. */
  function GainToInt(name: string): (g: int)
    ensures -1 <= g < |GainNames|
    ensures g >= 0 ==> GainNames[g] == name
    ensures g == -1 <==> name !in GainNames
  {
    if name == "GAIN_6144MV" then 0
    else if name == "GAIN_4096MV" then 1
    else if name == "GAIN_2048MV" then 2
    else if name == "GAIN_1024MV" then 3
    else if name == "GAIN_512MV" then 4
    else if name == "GAIN_256MV" then 5
    else -1
  }

  /** Every listed name maps back to its own position: the six names are distinct. */
  lemma GainNamesRoundTrip(i: nat)
    requires i < |GainNames|
    ensures GainToInt(GainNames[i]) == i
  {
    // Two names differ at index 5 or 6, or by length.
    var n := GainNames;
    assert n[0][5] == '6' && n[1][5] == '4' && n[2][5] == '2' && n[3][5] == '1' && n[4][5] == '5' && n[5][5] == '2';
    assert n[2][6] == '0' && n[5][6] == '5';
  }

  /** `channel_to_mux`: single-ended input AINk has multiplexer code 4 + k; any other channel reads AIN0. */
  function ChannelToMux(channel: bv8): (mux: bv8)
    ensures 4 <= mux <= 7
    ensures channel <= 3 ==> mux == channel + 4
    ensures channel > 3 ==> mux == 4
  {
    match channel
    case 0 => 4
    case 1 => 5
    case 2 => 6
    case 3 => 7
    case _ => 4
  }

  /**
   High byte of the configuration register: the multiplexer in bits 6..4,
   the gain in bits 3..1, "start a conversion" (bit 7) and "single shot"
   (bit 0). The C expression is evaluated in `int` and stored in an
   `unsigned char`; `bv8` arithmetic keeps the same low eight bits.
   */
  function ConfigHigh(mux: bv8, gain: bv8): (b: bv8)
    ensures b & 0x81 == 0x81
    ensures mux <= 7 && gain <= 7 ==> (b >> 4) & 7 == mux && (b >> 1) & 7 == gain
  {
    (mux << 4) | (gain << 1) | 0x81
  }

  /** Low byte of the configuration register: 128 samples per second, comparator disabled. */
  function ConfigLow(): (b: bv8)
    ensures b == 0x83
    ensures b >> 5 == Rate128 && b & 3 == 3
  {
    (Rate128 << 5) | 3
  }

  /** The three bytes written to start a conversion: register pointer, then the register's high and low bytes. */
  function ConfigWrite(channel: bv8, gain: bv8): (w: seq<bv8>)
    ensures |w| == 3 && w[0] == RegConfig && w[2] == 0x83
    ensures gain <= 7 ==> (w[1] >> 4) & 7 == ChannelToMux(channel) && (w[1] >> 1) & 7 == gain
  {
    [RegConfig, ConfigHigh(ChannelToMux(channel), gain), ConfigLow()]
  }

  /** The conversion result: `(hi << 8) | lo` as a 16-bit two's-complement value. */
  function Decode16(hi: Byte, lo: Byte): (v: int)
    ensures -32768 <= v <= 32767
    ensures v == hi as int * 256 + lo as int || v == hi as int * 256 + lo as int - 65536
    ensures v < 0 <==> hi >= 0x80
  {
    var u := hi as int * 256 + lo as int;
    if u >= 32768 then u - 65536 else u
  }

  /** The device's big-endian two's-complement bytes of a 16-bit value. */
  function Encode16(v: int): (bytes: (Byte, Byte))
    requires -32768 <= v <= 32767
  {
    var u := if v < 0 then v + 65536 else v;
    ((u / 256) as Byte, (u % 256) as Byte)
  }

  lemma DecodeEncode(v: int)
    requires -32768 <= v <= 32767
    ensures Decode16(Encode16(v).0, Encode16(v).1) == v
  {
  }

  lemma EncodeDecode(hi: Byte, lo: Byte)
    ensures Encode16(Decode16(hi, lo)) == (hi, lo)
  {
    var u := hi as int * 256 + lo as int;
    assert u / 256 == hi as int && u % 256 == lo as int;
  }

  /**
   What the bus reports: the byte counts returned by the configuration
   write, the pointer write and the two-byte read, and the bytes read.
   */
  datatype Bus = Bus(configWritten: int, pointerWritten: int, readCount: int, hi: Byte, lo: Byte)

  /**
   The return code, the value of `*conversionResult` afterwards (it
   starts as `previous`), and the writes issued, in order.
   */
  datatype Reading = Reading(code: int, result: int, sent: seq<seq<bv8>>)

  /** `ads1115_read`. */
  function Read(channel: bv8, gainName: string, bus: Bus, previous: int): (r: Reading)
    ensures r.code in {0, -1, -2, -3, -4}
    ensures r.code != 0 ==> r.result == previous
    ensures r.code == -1 <==> GainToInt(gainName) == -1
    ensures r.code == -1 ==> r.sent == []
    ensures r.code != -1 ==>
              |r.sent| >= 1 && r.sent[0] == ConfigWrite(channel, GainToInt(gainName) as bv8) &&
              (r.code != -2 ==> r.sent == [r.sent[0], [RegConversion]])
    ensures r.code == -2 ==> r.sent == [ConfigWrite(channel, GainToInt(gainName) as bv8)]
    ensures r.code == -2 <==> GainToInt(gainName) != -1 && bus.configWritten != 3
    ensures r.code == -3 <==> GainToInt(gainName) != -1 && bus.configWritten == 3 && bus.pointerWritten != 1
    ensures r.code == 0 <==>
              GainToInt(gainName) != -1 && bus.configWritten == 3 && bus.pointerWritten == 1 && bus.readCount == 2
    ensures r.code == 0 ==> r.result == Decode16(bus.hi, bus.lo)
  {
    var gain := GainToInt(gainName);
    if gain == -1 then Reading(-1, previous, [])
    else
      var config := ConfigWrite(channel, gain as bv8);
      if bus.configWritten != 3 then Reading(-2, previous, [config])
      else if bus.pointerWritten != 1 then Reading(-3, previous, [config, [RegConversion]])
      else if bus.readCount != 2 then Reading(-4, previous, [config, [RegConversion]])
      else Reading(0, Decode16(bus.hi, bus.lo), [config, [RegConversion]])
  }

  /** A successful read returns the value whose bytes the device sent. */
  lemma ReadReturnsDeviceValue(channel: bv8, gainName: string, v: int, previous: int)
    requires gainName in GainNames && -32768 <= v <= 32767
    ensures var bytes := Encode16(v);
            Read(channel, gainName, Bus(3, 1, 2, bytes.0, bytes.1), previous) == Reading(0, v, [ConfigWrite(channel, GainToInt(gainName) as bv8), [RegConversion]])
  {
    DecodeEncode(v);
  }
}
