/**
 The driver's register accessors: a 16-bit register travels on the bus as two bytes,
 most significant first; writes split a word into those bytes and reads join them back
 before decoding the word into a physical quantity. The bus transfers themselves are
 not modelled: a read is the pair of bytes the sensor returned, and a write is an entry
 in a trace of the transfers the driver asks for.
 */
module Driver {
  import opened CBits
  import opened Registers
  import opened Conf
  import opened Wrappers

  // ---------------------------------------------------------------- byte order

  /** The two bytes of a register transfer: `data[0]` (high) and `data[1]` (low). */
  datatype Payload = Payload(hi: Byte, lo: Byte)

  /** Conversion to `uint8_t`: the value modulo 256. */
  function AsUint8(x: nat): (b: Byte)
    ensures x < 256 ==> b == x
    ensures (x - b) % 256 == 0
  {
    DivModUnique(x - x % 256, 256, x / 256, 0);
    x % 256
  }

  /** `{v/256, v%256}`: the bytes a setter sends for a 16-bit value. */
  function Split(v: Word): (p: Payload)
    ensures p.hi * 256 + p.lo == v
  {
    Payload(AsUint8(v / 256), AsUint8(v % 256))
  }

  /** `(data[0] << 8) | data[1]`: the word a getter reads. */
  function Join(p: Payload): (w: Word)
    ensures w == p.hi * 256 + p.lo
  {
    var high := ShiftLeft(p.hi, 8);
    assert Pow2(8) == 256 by { Pow2Values(); }
    DivModUnique(high, 256, p.hi, 0);
    OrAdd(high, p.lo, 8);
    Or(high, p.lo)
  }

  /** Splitting and joining are inverse: no 16-bit value and no pair of bytes is lost. */
  lemma SplitJoin(v: Word, p: Payload)
    ensures Join(Split(v)) == v
    ensures Split(Join(p)) == p
  {
    DivModUnique(Join(p), 256, p.hi, p.lo);
  }

  // ---------------------------------------------------------------- reads

  /**
   One register read the driver asks the bus for: the device's 8-bit bus address and
   the register pointer. The sensor answers with the two bytes of that register.
   */
  datatype Read = Read(device: Byte, pointer: Byte)

  /** `HAL_I2C_Mem_Read` of a register of the sensor: its pointer, at `INA219_ADDR`. */
  function ReadRegister(r: Register): (q: Read)
    ensures q.device == Ina219Addr() && RegisterAt(q.pointer) == Some(r)
  {
    AddressInjective(r, r);
    Read(Ina219Addr(), Address(r))
  }

  // ---------------------------------------------------------------- bus voltage

  /** The read `INA219_getBusVoltage` issues: `BUS_VOLTAGE_REG` of the sensor. */
  function BusVoltageRead(): (q: Read)
    ensures q.device == Ina219Addr() && q.pointer == 0x02
    ensures RegisterAt(q.pointer) == Some(BusVoltage)
  {
    ReadRegister(BusVoltage)
  }

  /**
   The bus voltage register's count: `rawdata >> 3`, dropping the status bits 2..0.
   The count is the number of whole steps of 8 in the word.
   */
  function BusVoltageCount(p: Payload): (n: nat)
    ensures n < 8192
    ensures 8 * n <= Join(p) < 8 * n + 8
  {
    assert Pow2(3) == 8 by { Pow2Values(); }
    ShiftRight(Join(p), 3)
  }

  /** `INA219_getBusVoltage`, in µV: the count times the voltage step. */
  function GetBusVoltage(s: Settings, p: Payload): (uv: nat)
    ensures uv % s.voltLsb == 0 && uv / s.voltLsb == BusVoltageCount(p)
    ensures uv <= 8191 * s.voltLsb
  {
    var n := BusVoltageCount(p);
    DivModUnique(n * s.voltLsb, s.voltLsb, n, 0);
    MulMono(n, 8191, s.voltLsb);
    n * s.voltLsb
  }

  /** Two readings give the same bus voltage exactly when their words differ only in bits 2..0. */
  lemma BusVoltageIgnoresStatusBits(s: Settings, p: Payload, q: Payload)
    ensures GetBusVoltage(s, p) == GetBusVoltage(s, q) <==> Join(p) / 8 == Join(q) / 8
  {
    var n, m := BusVoltageCount(p), BusVoltageCount(q);
    DivModUnique(Join(p), 8, n, Join(p) - 8 * n);
    DivModUnique(Join(q), 8, m, Join(q) - 8 * m);
    if n != m {
      MulCancel(n, m, s.voltLsb);
    }
  }

  /** The bus voltage is the number of whole steps of 8 in the word, times the voltage step. */
  lemma BusVoltageOfWord(s: Settings, p: Payload)
    ensures GetBusVoltage(s, p) == Join(p) / 8 * s.voltLsb
  {
    var n := BusVoltageCount(p);
    DivModUnique(Join(p), 8, n, Join(p) - 8 * n);
    ExactDiv(GetBusVoltage(s, p), s.voltLsb);
  }

  /** A word holding `n` steps above any status bits reads back as `n` voltage steps. */
  lemma BusVoltageOfCount(s: Settings, n: nat, status: nat)
    requires n < 8192 && status < 8
    ensures GetBusVoltage(s, Split(8 * n + status)) == n * s.voltLsb
  {
    var p := Split(8 * n + status);
    BusVoltageOfWord(s, p);
    DivModUnique(8 * n + status, 8, n, status);
  }

  /** The status bits alone read as 0 V, and bit 3 is one voltage step. */
  lemma BusVoltageSamples(s: Settings)
    ensures GetBusVoltage(s, Payload(0x00, 0x00)) == 0
    ensures GetBusVoltage(s, Payload(0x00, 0x07)) == 0
    ensures GetBusVoltage(s, Payload(0x00, 0x08)) == s.voltLsb
  {
    BusVoltageOfWord(s, Payload(0x00, 0x00));
    BusVoltageOfWord(s, Payload(0x00, 0x07));
    BusVoltageOfWord(s, Payload(0x00, 0x08));
  }

  // ---------------------------------------------------------------- signed registers

  /**
   `(int16_t)w`: the two's-complement reading of a 16-bit word, the one value in
   -32768 .. 32767 congruent to `w` modulo 2^16.
   */
  function ToInt16(w: Word): (i: int)
    ensures -32768 <= i < 32768
    ensures (w - i) % 65536 == 0
    ensures i < 0 <==> w >= 32768
  {
    if w >= 32768 then
      DivModUnique(65536, 65536, 1, 0);
      w - 65536
    else
      DivModUnique(0, 65536, 0, 0);
      w
  }

  /** `(uint16_t)i` for an `int16_t` value: the word `ToInt16` reads back as `i`. */
  function FromInt16(i: int): (w: Word)
    requires -32768 <= i < 32768
    ensures ToInt16(w) == i
  {
    if i < 0 then i + 65536 else i
  }

  /** Every word is the encoding of its own signed reading. */
  lemma Int16RoundTrip(w: Word)
    ensures FromInt16(ToInt16(w)) == w
  {
  }

  /** A congruence class modulo 2^16 has one member in the `int16_t` range. */
  lemma Int16Unique(w: Word, i: int)
    requires -32768 <= i < 32768 && (w - i) % 65536 == 0
    ensures ToInt16(w) == i
  {
    var j := ToInt16(w);
    var d := (w - i) / 65536;
    DivModUnique(w - i, 65536, d, 0);
    var e := (w - j) / 65536;
    DivModUnique(w - j, 65536, e, 0);
    assert j - i == (d - e) * 65536 by { MulDist(d, -e, 65536); }
  }

  /**
   A signed register scaled by a step: the signed reading times `lsb`. It is negative
   exactly when the sign bit (bit 7 of the high byte) is set.
   */
  function SignedReading(p: Payload, lsb: Lsb): (x: int)
    ensures x % lsb == 0 && x / lsb == ToInt16(Join(p))
    ensures -32768 * lsb <= x <= 32767 * lsb
    ensures x < 0 <==> p.hi >= 128
  {
    var i := ToInt16(Join(p));
    DivModUnique(i * lsb, lsb, i, 0);
    MulMonoInt(-32768, i, lsb);
    MulMonoInt(i, 32767, lsb);
    ScaledSign(i, lsb);
    i * lsb
  }

  /** The read `INA219_getCurrent` issues: `CURRENT_REG` of the sensor. */
  function CurrentRead(): (q: Read)
    ensures q.device == Ina219Addr() && q.pointer == 0x04
    ensures RegisterAt(q.pointer) == Some(Current)
  {
    ReadRegister(Current)
  }

  /** `INA219_getCurrent`, in µA: the signed reading of the current register times the current step. */
  function GetCurrent(s: Settings, p: Payload): (ua: int)
    ensures ua % s.currentLsb == 0 && ua / s.currentLsb == ToInt16(Join(p))
    ensures -32768 * s.currentLsb <= ua <= 32767 * s.currentLsb
    ensures ua < 0 <==> p.hi >= 128
  {
    SignedReading(p, s.currentLsb)
  }

  /**
   The step of the shunt voltage register, 0.00001 V in µV: fixed in the driver whatever
   the settings, 100000 steps make one volt.
   */
  function ShuntLsb(): (l: Lsb)
    ensures 100_000 * l == 1_000_000
  {
    10
  }

  /** The read `INA219_getShuntVoltage` issues: `SHUNT_VOLTAGE_REG` of the sensor. */
  function ShuntVoltageRead(): (q: Read)
    ensures q.device == Ina219Addr() && q.pointer == 0x01
    ensures RegisterAt(q.pointer) == Some(ShuntVoltage)
  {
    ReadRegister(ShuntVoltage)
  }

  /** `INA219_getShuntVoltage`, in µV: the signed reading of the shunt register times 10 µV. */
  function GetShuntVoltage(p: Payload): (uv: int)
    ensures uv % 10 == 0 && uv / 10 == ToInt16(Join(p))
    ensures -327680 <= uv <= 327670
    ensures uv < 0 <==> p.hi >= 128
  {
    SignedReading(p, ShuntLsb())
  }

  /** A signed step count written as a word reads back as that many steps. */
  lemma SignedReadingOfSteps(i: int, lsb: Lsb)
    requires -32768 <= i < 32768
    ensures SignedReading(Split(FromInt16(i)), lsb) == i * lsb
  {
    var p := Split(FromInt16(i));
    SplitJoin(FromInt16(i), p);
    ExactDiv(SignedReading(p, lsb), lsb);
  }

  /**
   All bits set is one step below zero, the largest positive word is 32767 steps, the
   sign bit alone is -32768 steps, and the bytes 0x00, 0x64 are 100 steps.
   */
  lemma CurrentSamples(s: Settings)
    ensures GetCurrent(s, Payload(0xFF, 0xFF)) == -(s.currentLsb as int)
    ensures GetCurrent(s, Payload(0x7F, 0xFF)) == 32767 * s.currentLsb
    ensures GetCurrent(s, Payload(0x80, 0x00)) == -32768 * s.currentLsb
    ensures GetCurrent(s, Payload(0x00, 0x64)) == 100 * s.currentLsb
  {
    SignedReadingOfSteps(-1, s.currentLsb);
    SignedReadingOfSteps(32767, s.currentLsb);
    SignedReadingOfSteps(-32768, s.currentLsb);
    SignedReadingOfSteps(100, s.currentLsb);
  }

  /** The shunt voltage does not depend on the current step: 0x0064 reads as 1 mV under any settings. */
  lemma ShuntVoltageSamples()
    ensures GetShuntVoltage(Payload(0x00, 0x64)) == 1000
    ensures GetShuntVoltage(Payload(0xFF, 0x9C)) == -1000
  {
    SignedReadingOfSteps(100, ShuntLsb());
    SignedReadingOfSteps(-100, ShuntLsb());
  }

  // ---------------------------------------------------------------- power

  /** The read `INA219_getPower` issues: `POWER_REG` of the sensor. */
  function PowerRead(): (q: Read)
    ensures q.device == Ina219Addr() && q.pointer == 0x03
    ensures RegisterAt(q.pointer) == Some(Power)
  {
    ReadRegister(Power)
  }

  /** `INA219_getPower`, in µW: the unsigned power register times 20 current steps. */
  function GetPower(s: Settings, p: Payload): (uw: nat)
    ensures uw % PowerLsb(s) == 0 && uw / PowerLsb(s) == Join(p)
    ensures uw <= 65535 * PowerLsb(s)
  {
    var raw := Join(p);
    MulAssoc(raw, 20, s.currentLsb);
    DivModUnique(raw * PowerLsb(s), PowerLsb(s), raw, 0);
    MulMono(raw, 65535, PowerLsb(s));
    raw * 20 * s.currentLsb
  }

  /** A power count written as a word reads back as that many power steps. */
  lemma PowerOfCount(s: Settings, n: Word)
    ensures GetPower(s, Split(n)) == n * PowerLsb(s)
  {
    var p := Split(n);
    SplitJoin(n, p);
    ExactDiv(GetPower(s, p), PowerLsb(s));
  }

  /** The least power reading is one power step, 200 µW with the shipped settings. */
  lemma PowerSamples(s: Settings)
    ensures GetPower(s, Payload(0x00, 0x00)) == 0
    ensures GetPower(s, Payload(0x00, 0x01)) == PowerLsb(s)
    ensures GetPower(Ina219Settings(), Payload(0x00, 0x01)) == 200
  {
    PowerOfCount(s, 0);
    PowerOfCount(s, 1);
    PowerOfCount(Ina219Settings(), 1);
    PowerLsbShipped();
  }

  // ---------------------------------------------------------------- writes

  /**
   One register write the driver asks the bus for: the device's 8-bit bus address,
   the register pointer and the two data bytes, high byte first.
   */
  datatype Write = Write(device: Byte, pointer: Byte, data: Payload)

  /** A write of a 16-bit value to a register of the sensor. */
  function WriteRegister(r: Register, v: Word): (w: Write)
    ensures w.device == Ina219Addr() && RegisterAt(w.pointer) == Some(r)
    ensures Join(w.data) == v
  {
    AddressInjective(r, r);
    SplitJoin(v, Split(v));
    Write(Ina219Addr(), Address(r), Split(v))
  }

  /** `INA219_setConfig`: the value, split into bytes, to the configuration register. */
  function SetConfig(config: Word): (w: Write)
    ensures w.device == Ina219Addr() && w.pointer == 0x00
    ensures Join(w.data) == config
  {
    WriteRegister(Config, config)
  }

  /** `INA219_setCalibration`: the value, split into bytes, to the calibration register. */
  function SetCalibration(calibration: Word): (w: Write)
    ensures w.device == Ina219Addr() && w.pointer == 0x05
    ensures Join(w.data) == calibration
  {
    WriteRegister(Calibration, calibration)
  }

  /**
   `INA219_Init`: the configuration word, then the calibration value. The calibration
   value is computed in floating point at build time, so it is a parameter here.
   */
  function Init(calibration: Word): (trace: seq<Write>)
    ensures |trace| == 2 && trace[0].device == trace[1].device == Ina219Addr()
    ensures trace[0].pointer == 0x00 && Join(trace[0].data) == ConfigWord()
    ensures trace[1].pointer == 0x05 && Join(trace[1].data) == calibration
  {
    [SetConfig(ConfigWord()), SetCalibration(calibration)]
  }

  /**
   What one write does to the sensor's registers: a write to the sensor's address
   stores its joined bytes in the register its pointer selects; a write to another
   device or to a pointer beyond the register map changes nothing.
   */
  function Store(regs: map<Register, Word>, w: Write): (after: map<Register, Word>)
    ensures forall r :: w.device == Ina219Addr() && w.pointer == Address(r) ==>
      r in after && after[r] == Join(w.data)
    ensures forall r :: !(w.device == Ina219Addr() && w.pointer == Address(r)) ==>
      (r in after <==> r in regs) && (r in regs ==> after[r] == regs[r])
  {
    match RegisterAt(w.pointer)
    case Some(r) => if w.device == Ina219Addr() then regs[r := Join(w.data)] else regs
    case None => regs
  }

  /**
   The sensor's answer to a read: the selected register's value, high byte first. A read
   addressed to another device, a pointer beyond the register map, or a register that
   holds no value yet gets no answer.
   */
  function Respond(regs: map<Register, Word>, q: Read): (p: Option<Payload>)
    ensures p.Some? <==> q.device == Ina219Addr() && RegisterAt(q.pointer).Some? && RegisterAt(q.pointer).value in regs
    ensures p.Some? ==> Join(p.value) == regs[RegisterAt(q.pointer).value]
  {
    match RegisterAt(q.pointer)
    case Some(r) =>
      if q.device == Ina219Addr() && r in regs then
        SplitJoin(regs[r], Split(regs[r]));
        Some(Split(regs[r]))
      else None
    case None => None
  }

  /** A read of the register just written returns the written value; a read of any other register is unaffected. */
  lemma ReadAfterWrite(regs: map<Register, Word>, r: Register, v: Word, other: Register)
    requires other != r
    ensures Respond(Store(regs, WriteRegister(r, v)), ReadRegister(r)) == Some(Split(v))
    ensures Respond(Store(regs, WriteRegister(r, v)), ReadRegister(other)) == Respond(regs, ReadRegister(other))
  {
    var w := WriteRegister(r, v);
    AddressInjective(r, other);
    SplitJoin(v, w.data);
  }

  /**
   Each getter decodes its own register: what the sensor answers to the getter's read,
   decoded, is that register's value as the getter scales it.
   */
  lemma GettersReadTheirRegisters(s: Settings, regs: map<Register, Word>)
    requires BusVoltage in regs && Current in regs && ShuntVoltage in regs && Power in regs
    ensures Respond(regs, BusVoltageRead()).Some? && Respond(regs, CurrentRead()).Some?
    ensures Respond(regs, ShuntVoltageRead()).Some? && Respond(regs, PowerRead()).Some?
    ensures GetBusVoltage(s, Respond(regs, BusVoltageRead()).value) == regs[BusVoltage] / 8 * s.voltLsb
    ensures GetCurrent(s, Respond(regs, CurrentRead()).value) == ToInt16(regs[Current]) * s.currentLsb
    ensures GetShuntVoltage(Respond(regs, ShuntVoltageRead()).value) == ToInt16(regs[ShuntVoltage]) * 10
    ensures GetPower(s, Respond(regs, PowerRead()).value) == regs[Power] * PowerLsb(s)
  {
    var b := Respond(regs, BusVoltageRead()).value;
    BusVoltageOfWord(s, b);
    var c := Respond(regs, CurrentRead()).value;
    ExactDiv(GetCurrent(s, c), s.currentLsb);
    var v := Respond(regs, ShuntVoltageRead()).value;
    ExactDiv(GetShuntVoltage(v), 10);
    var p := Respond(regs, PowerRead()).value;
    ExactDiv(GetPower(s, p), PowerLsb(s));
  }

  /** The sensor's registers after a trace of writes, applied in order. */
  function Apply(regs: map<Register, Word>, trace: seq<Write>): (after: map<Register, Word>)
    ensures regs.Keys <= after.Keys
    ensures (forall k | 0 <= k < |trace| :: trace[k].device != Ina219Addr()) ==> after == regs
    decreases |trace|
  {
    if trace == [] then regs
    else
      assert forall k | 0 <= k < |trace[1..]| :: trace[1..][k] == trace[k + 1];
      Apply(Store(regs, trace[0]), trace[1..])
  }

  /** Writing a configuration and then a calibration value leaves both in the sensor. */
  lemma SetupEffect(regs: map<Register, Word>, config: Word, calibration: Word)
    ensures Apply(regs, [SetConfig(config), SetCalibration(calibration)])
         == regs[Config := config][Calibration := calibration]
  {
    var a, b := SetConfig(config), SetCalibration(calibration);
    var r1 := Store(regs, a);
    assert r1 == regs[Config := config];
    assert Store(r1, b) == r1[Calibration := calibration];
    assert [a, b][1..] == [b];
    assert [b][1..] == [];
  }

  /**
   After `Init` the sensor holds the driver's configuration word, which unpacks to the
   chosen options, and the calibration value; no other register changes.
   */
  lemma InitEffect(regs: map<Register, Word>, calibration: Word)
    ensures Apply(regs, Init(calibration)) == regs[Config := ConfigWord()][Calibration := calibration]
    ensures Unpack(Apply(regs, Init(calibration))[Config]) == Some(ChosenFields)
  {
    SetupEffect(regs, ConfigWord(), calibration);
  }
}
