/**
 The build-time configuration of the driver: the composed configuration word, the
 sensor's bus address and the scales of one register step, all in exact integer
 micro-units instead of the `double` literals of the configuration header.
 */
module Conf {
  import opened CBits
  import opened Registers
  import opened Wrappers

  /** The options `INA219_CONFIG` selects: 32 V range, ±40 mV, 12-bit bus ADC, 12-bit shunt ADC averaged over 8 samples, shunt and bus continuous; no reset. */
  const ChosenFields: ConfigFields :=
    ConfigFields(false, Range32V, Gain40mV, Adc12Bit, Adc12Bit8Samples, ShuntBusContinuous)

  /**
   `INA219_CONFIG`: `BVR_32V|GAIN_40MV|BADC_12BIT|SADC_12BIT_8SAMPLES|MODE_SHUNT_BUS_CONTINUOUS`,
   which is `Pack` of the chosen options (with the reset flag clear `Pack` starts from 0,
   and `0 | x == x`). It is 0x21DF and unpacks back to exactly those options.
   */
  function ConfigWord(): (w: Word)
    ensures w == 0x21DF
    ensures Unpack(w) == Some(ChosenFields)
  {
    PackChosenOptions(ChosenFields);
    UnpackPack(ChosenFields);
    Pack(ChosenFields)
  }

  /**
   Any options record holding the chosen options packs to 0x21DF. The record is a
   parameter, constrained field by field, rather than the constant `ChosenFields`: that
   way the verifier evaluates `Pack` one field at a time instead of unfolding the whole
   constant record at once, which is far more expensive.
   */
  lemma PackChosenOptions(f: ConfigFields)
    requires !f.reset && f.range == Range32V && f.gain == Gain40mV
    requires f.busAdc == Adc12Bit && f.shuntAdc == Adc12Bit8Samples && f.mode == ShuntBusContinuous
    ensures Pack(f) == 0x21DF
  {
  }

  /**
   Read field by field, the configuration word leaves the reset bit and bit 14 clear and
   holds BRNG 1 (32 V), PG 0 (±40 mV), BADC 3 (12 bit), SADC 11 (12 bit, 8 samples) and
   MODE 7 (shunt and bus, continuous).
   */
  lemma ConfigWordFields()
    ensures BitField(ConfigWord(), 15, 1) == 0 && BitField(ConfigWord(), 14, 1) == 0
    ensures BitField(ConfigWord(), 13, 1) == 1 && BitField(ConfigWord(), 11, 2) == 0
    ensures BitField(ConfigWord(), 7, 4) == 3 && BitField(ConfigWord(), 3, 4) == 11
    ensures BitField(ConfigWord(), 0, 3) == 7
  {
    UnpackCodes(ConfigWord(), ChosenFields);
  }

  /** A 7-bit bus address moved over the read/write flag: `addr7 << 1`. */
  function DeviceAddress(addr7: nat): (a: Byte)
    requires addr7 < 128
    ensures a % 2 == 0
    ensures a / 2 == addr7
  {
    Pow2Values();
    ShiftLeft(addr7, 1)
  }

  /** `INA219_ADDR`: the sensor at 7-bit address 0x40, which is 0x80 on the bus. */
  function Ina219Addr(): (a: Byte)
    ensures a == 0x80
  {
    DeviceAddress(0x40)
  }

  /** A positive scale, in micro-units per register step. */
  type Lsb = x: nat | x > 0 witness 1

  /** The two user-set scales: bus voltage per step (µV) and current per step (µA). */
  datatype Settings = Settings(voltLsb: Lsb, currentLsb: Lsb)

  /**
   The shipped scales, `INA219_VOLT_LSB` = 0.004 V and `INA219_CURRENT_LSB` = 0.00001 A,
   in micro-units: 250 voltage steps make one volt and 100000 current steps one ampere.
   */
  function Ina219Settings(): (s: Settings)
    ensures 250 * s.voltLsb == 1_000_000
    ensures 100_000 * s.currentLsb == 1_000_000
  {
    Settings(4000, 10)
  }

  /** One step of the power register: 20 current steps, in µW (200 µW with the shipped settings). */
  function PowerLsb(s: Settings): (p: Lsb)
    ensures p % s.currentLsb == 0
    ensures p / s.currentLsb == 20
  {
    DivModUnique(20 * s.currentLsb, s.currentLsb, 20, 0);
    20 * s.currentLsb
  }

  lemma PowerLsbShipped()
    ensures PowerLsb(Ina219Settings()) == 200
  {
  }
}
