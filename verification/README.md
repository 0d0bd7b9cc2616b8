# INA219 register codec

A Dafny model of the register codec of an STM32 HAL driver for the INA219
current/power monitor. The driver talks to the sensor over I2C. Every register is
16 bits wide and travels as two bytes, high byte first. The model covers:

- the byte order of register transfers: `{v/256, v%256}` on writes and
  `(data[0] << 8) | data[1]` on reads;
- the four decode rules, each turning a raw register word into a physical value:
  - bus voltage: unsigned, shifted right by 3, times the voltage step;
  - current: `int16_t`, times the current step;
  - shunt voltage: `int16_t`, times a fixed 10 µV;
  - power: unsigned, times 20 current steps;
- the register map and the bit-field layout of the configuration register: the
  reset flag, BRNG, PG, BADC, SADC and MODE, each option macro a code shifted
  into its field;
- the configuration word the driver composes, `INA219_CONFIG`, and the sensor's
  bus address `INA219_ADDR`;
- the read each getter issues: the sensor's bus address and the register's pointer;
- `INA219_Init`: a configuration write followed by a calibration write, and what
  those writes leave in the sensor's registers.

Modules, one per file:

- `CBits` (`cbits.dfy`): C's `<<`, `>>` and `|` on the non-negative values the
  driver computes with, and the lemmas that make them tractable. These say when
  an OR is a sum and how a word splits into bit fields.
- `Registers` (`registers.dfy`): the register map, the field layout, the option
  macros, and `Pack`/`Unpack` of a configuration word.
- `Conf` (`conf.dfy`): the build-time configuration. This is the chosen
  configuration word, the bus address, and the step sizes.
- `Driver` (`driver.dfy`): byte order, the four getters, the two setters, `Init`,
  and a register file that gives writes their meaning.
- `Wrappers` (`wrappers.dfy`): `Option`.

Physical values are exact integers in micro-units:

| quantity | unit | shipped step |
|---|---|---|
| bus voltage | µV | 4000 µV |
| current | µA | 10 µA |
| shunt voltage | µV | 10 µV |
| power | µW | 200 µW |

The driver computes in `double`. Every constant it scales by is a whole number of
micro-units, and the model gives each reading exactly as `count × step`. The driver
multiplies the count by the binary64 value of the decimal step and rounds the
product, so its `double` can differ from `count × step` in the last place.
The bus voltage and current steps
are the `Settings` parameter of `GetBusVoltage`, `GetCurrent` and `GetPower`, and
`Ina219Settings` holds the shipped values from `Inc/ina219_conf.h`. The shunt voltage
step is fixed at 10 µV in the driver (`ShuntLsb`), so `GetShuntVoltage` takes no
settings. The power step is 20 current steps.

`Unpack` is not in the driver. It is the inverse that states what `Pack` keeps.
It returns `None` for a word that no combination of the header's macros can
produce. That is a word with bit 14 set, or with an ADC field holding a code from
4 to 8: the header defines no macro for those codes.

The driver has no configuration read-back. The interrupt and DMA accessors are
declared in `Inc/ina219.h` (lines 119-126) but not defined in `Src/ina219.c`, so
the model has no asynchronous request state.

## Model

| member | source | states |
|---|---|---|
| CBits.Or | Src/ina219.c:41 | the OR of two 16-bit operands is a 16-bit value no smaller than either operand |
| CBits.OrAdd | Inc/ina219_conf.h:26 | OR-ing a multiple of 2^k with a value below 2^k gives their sum, because no bit is shared |
| CBits.OrBitsAdd | Inc/ina219.h:53-106 | the same for n-bit operands, proved by induction on the bit position |
| CBits.BitFieldOf | Inc/ina219.h:53-106 | the `width` bits at `lo` of `hi·2^(lo+width) + c·2^lo + low` are exactly `c`, when `c` and `low` fit their bits |
| CBits.ModSplit | Inc/ina219.h:53-106 | the bits of a word below `lo+width` are its field at `lo`, followed by its bits below `lo` |
| Registers.Address | Inc/ina219.h:43-48 | the six register pointers are 0x00..0x05, with the configuration register at 0x00 and the calibration register at 0x05 |
| Registers.RegisterAt | Inc/ina219.h:43-48 | a register pointer names a register exactly when it is 0x00..0x05, and then that register's address is the pointer |
| Registers.AddressInjective | Inc/ina219.h:43-48 | the six register addresses are pairwise distinct, so `RegisterAt` undoes `Address` |
| Registers.Lo | Inc/ina219.h:53-98 | each field's lowest bit leaves the whole field inside the 16-bit word, and only the reset flag starts at bit 15 |
| Registers.Width | Inc/ina219.h:53-98 | each field is one to four bits wide, and only the reset flag and BRNG are single bits |
| Registers.FieldsDisjoint | Inc/ina219.h:53-106 | every field lies inside the 16-bit word, and no two fields share a bit |
| Registers.Place | Inc/ina219.h:56-106 | a code that fits its field, shifted to the field's lowest bit, sets no bit outside the field |
| Registers.ConfigReset | Inc/ina219.h:54 | `CONFIG_RESET` is bit 15, 32768 |
| Registers.RangeOfCode | Inc/ina219.h:56-58 | each 1-bit BRNG code decodes to the range whose code it is |
| Registers.GainOfCode | Inc/ina219.h:60-66 | each 2-bit PG code decodes to the gain whose code it is |
| Registers.AdcOfCode | Inc/ina219.h:68-96 | a 4-bit ADC code names a setting exactly when it is 0..3 or 9..15, and then decodes to the setting with that code |
| Registers.ModeOfCode | Inc/ina219.h:98-106 | each 3-bit mode code decodes to the mode whose code it is |
| Registers.CodesRoundTrip | Inc/ina219.h:56-106 | every option's code is in range and decodes back to that option |
| Registers.Brng | Inc/ina219.h:57-58 | `BVR_x` is its range code times 2^13 |
| Registers.Pg | Inc/ina219.h:63-66 | `GAIN_x` is its gain code times 2^11 |
| Registers.Badc | Inc/ina219.h:71-81 | `BADC_x` is its ADC code times 2^7 |
| Registers.Sadc | Inc/ina219.h:86-96 | `SADC_x` is its ADC code times 2^3 |
| Registers.ModeBits | Inc/ina219.h:99-106 | `MODE_x` is its mode code itself |
| Registers.SadcIsBadcShifted | Inc/ina219.h:71-96 | for every ADC setting, `SADC_x == BADC_x >> 4` and `BADC_x == SADC_x << 4` |
| Registers.ModesAreLowThreeBits | Inc/ina219.h:99-106 | the eight mode macros are exactly the values 0..7 |
| Registers.MacrosInTheirFields | Inc/ina219.h:54-106 | the reset flag sits in bit 15 and every option macro stays inside its own field's bits |
| Registers.Pack | Inc/ina219_conf.h:26 | the OR of one option per field equals the weighted sum of the field codes, and fits the `uint16_t` parameter of `INA219_setConfig` |
| Registers.OrChainIsSum | Inc/ina219_conf.h:26 | OR-ing in-range codes placed at the field positions, highest field first, adds them |
| Registers.FieldsOfSum | Inc/ina219.h:53-106 | each field of a weighted sum of in-range codes reads back as its own code, and bit 14 stays clear |
| Registers.UnpackFieldSum | Inc/ina219.h:53-106 | a word that is the weighted sum of some options' codes unpacks to those options |
| Registers.UnpackPack | Inc/ina219.h:53-106 | every field of a packed word is extracted back unchanged |
| Registers.WordOfFields | Inc/ina219.h:53-106 | a 16-bit word is the weighted sum of its six fields and its unused bit 14 |
| Registers.UnpackCodes | Inc/ina219.h:53-106 | a word unpacks only when bit 14 is clear, and then each field holds its option's code |
| Registers.PackUnpack | Inc/ina219.h:53-106 | a word that unpacks to some options is exactly the packing of those options |
| Conf.ConfigWord | Inc/ina219_conf.h:26 | `INA219_CONFIG` is the 16-bit word 0x21DF, and it unpacks to exactly the options it names |
| Conf.PackChosenOptions | Inc/ina219_conf.h:26 | the options `INA219_CONFIG` names pack to 0x21DF |
| Conf.ConfigWordFields | Inc/ina219_conf.h:26 | read field by field, `INA219_CONFIG` has the reset bit and bit 14 clear, BRNG 1, PG 0, BADC 3, SADC 11 and MODE 7 |
| Conf.DeviceAddress | Inc/ina219_conf.h:28-29 | a 7-bit address shifted left by one fits a byte, has the R/W bit 0 clear, and keeps the address in bits 7..1 |
| Conf.Ina219Addr | Inc/ina219_conf.h:29 | `INA219_ADDR` is 0x80 on the bus |
| Conf.Ina219Settings | Inc/ina219_conf.h:35-38 | the shipped voltage step is 1/250 V and the shipped current step is 1/100000 A, in micro-units |
| Conf.PowerLsb | Src/ina219.c:80 | one power step is exactly 20 current steps |
| Conf.PowerLsbShipped | Inc/ina219_conf.h:38 | with the shipped 10 µA current step, one power step is 200 µW |
| Driver.AsUint8 | Src/ina219.c:10 | conversion to `uint8_t` is congruent to its input modulo 256, and leaves values below 256 unchanged |
| Driver.Split | Src/ina219.c:10 | the two bytes a setter sends for `v` satisfy `hi·256 + lo == v` |
| Driver.Join | Src/ina219.c:53 | `data[0] << 8` OR-ed with `data[1]` is `data[0]·256 + data[1]`, a value in 0..65535 |
| Driver.SplitJoin | Src/ina219.c:20 | splitting then joining gives back every 16-bit value, and joining then splitting gives back every byte pair |
| Driver.ReadRegister | Src/ina219.c:40 | a register read goes to the sensor's address and carries a pointer that selects exactly that register |
| Driver.BusVoltageRead | Src/ina219.c:40 | `INA219_getBusVoltage` reads pointer 0x02 of the sensor, the bus voltage register |
| Driver.BusVoltageCount | Src/ina219.c:41 | the bus voltage count is below 8192 and is the number of whole steps of 8 in the word |
| Driver.GetBusVoltage | Src/ina219.c:37-43 | the bus voltage is a whole number of voltage steps, equal to the count, and at most 8191 steps |
| Driver.BusVoltageIgnoresStatusBits | Src/ina219.c:41 | two readings give the same bus voltage exactly when their words differ only in bits 2..0 |
| Driver.BusVoltageOfWord | Src/ina219.c:41-42 | the bus voltage is `⌊word / 8⌋` voltage steps |
| Driver.BusVoltageOfCount | Src/ina219.c:41-42 | a word holding `n` steps of 8, with any status bits below them, reads back as `n` voltage steps |
| Driver.BusVoltageSamples | Src/ina219.c:41-42 | raw 0x0000 and 0x0007 read as 0 V, and raw 0x0008 reads as one voltage step |
| Driver.ToInt16 | Src/ina219.c:53 | `(int16_t)w` is the one value in -32768..32767 congruent to `w` modulo 2^16, and is negative exactly when `w >= 0x8000` |
| Driver.FromInt16 | Src/ina219.c:53 | every `int16_t` value is the reading of some 16-bit word |
| Driver.Int16RoundTrip | Src/ina219.c:53 | every word is the encoding of its own signed reading |
| Driver.Int16Unique | Src/ina219.c:66 | a value in the `int16_t` range that is congruent to a word modulo 2^16 is that word's signed reading |
| Driver.SignedReading | Src/ina219.c:53-54 | a signed register reading is a whole number of steps, equal to the word's `int16_t` value, within ±32768 steps, and negative exactly when the high byte's top bit is set |
| Driver.CurrentRead | Src/ina219.c:52 | `INA219_getCurrent` reads pointer 0x04 of the sensor, the current register |
| Driver.GetCurrent | Src/ina219.c:49-56 | the current is the current register's `int16_t` value in current steps, and is negative exactly when the sign bit is set |
| Driver.ShuntVoltageRead | Src/ina219.c:65 | `INA219_getShuntVoltage` reads pointer 0x01 of the sensor, the shunt voltage register |
| Driver.ShuntLsb | Src/ina219.c:67 | the shunt voltage step is 1/100000 V, in µV |
| Driver.GetShuntVoltage | Src/ina219.c:62-69 | the shunt voltage is the shunt register's `int16_t` value in fixed 10 µV steps, whatever the settings |
| Driver.SignedReadingOfSteps | Src/ina219.c:53-54 | a signed step count written as a word reads back as that many steps |
| Driver.CurrentSamples | Src/ina219.c:53-54 | raw 0xFFFF is -1 step, 0x7FFF is 32767 steps, 0x8000 is -32768 steps and 0x0064 is 100 steps |
| Driver.ShuntVoltageSamples | Src/ina219.c:66-67 | raw 0x0064 reads as 1000 µV and raw 0xFF9C as -1000 µV |
| Driver.PowerRead | Src/ina219.c:78 | `INA219_getPower` reads pointer 0x03 of the sensor, the power register |
| Driver.GetPower | Src/ina219.c:75-81 | the power is the unsigned power register in power steps, never negative and at most 65535 power steps |
| Driver.PowerOfCount | Src/ina219.c:79-80 | any 16-bit count written as a word reads back as that many power steps |
| Driver.PowerSamples | Src/ina219.c:79-80 | raw 0x0000 is 0 and raw 0x0001 is one power step, which is 200 µW with the shipped settings |
| Driver.WriteRegister | Src/ina219.c:11 | a register write goes to the sensor's address, carries a pointer that selects the register, and carries bytes that join back to the value |
| Driver.SetConfig | Src/ina219.c:8-12 | `INA219_setConfig` writes to pointer 0x00 bytes that join back to the configuration value |
| Driver.SetCalibration | Src/ina219.c:18-22 | `INA219_setCalibration` writes to pointer 0x05 bytes that join back to the calibration value |
| Driver.Init | Src/ina219.c:27-31 | `INA219_Init` is exactly two writes to the sensor: the configuration word to 0x00, then the calibration value to 0x05 |
| Driver.Store | Src/ina219.c:11 | a write addressed to the sensor stores its joined bytes in the register whose pointer it carries; every other register, and every register when the write goes to another device, keeps its value |
| Driver.Respond | Src/ina219.c:40-41 | the sensor answers a read exactly when it is addressed to the sensor and selects a register holding a value, and the answer's bytes join back to that value |
| Driver.ReadAfterWrite | Src/ina219.c:11 | a read of the register just written returns the written value's bytes, and a read of any other register gets the same answer as before the write |
| Driver.GettersReadTheirRegisters | Src/ina219.c:37-81 | each getter, decoding the sensor's answer to its own read, gives its own register's value scaled: bus voltage `⌊v/8⌋` voltage steps, current and shunt voltage the `int16_t` value in their steps, power `v` power steps |
| Driver.Apply | Src/ina219.c:11 | applying writes never removes a register, and writes addressed to another device change nothing |
| Driver.SetupEffect | Src/ina219.c:27-31 | a configuration write followed by a calibration write leaves both values in the sensor, and nothing else changes |
| Driver.InitEffect | Src/ina219.c:27-31 | after `INA219_Init` the sensor holds `INA219_CONFIG`, which unpacks to the chosen options, and the calibration value |

## Left out

- The I2C transport is not modelled. `HAL_I2C_Mem_Read` and `HAL_I2C_Mem_Write` are foreign calls. Their timeout of 100 and their status returns, which the driver ignores, are left out too. A read is a `Read` request answered by the sensor's register file with a `Payload`, and a write is a `Write` entry in a trace.
- `double` arithmetic is not modelled. Readings are exact integer micro-units. The binary64 value of each decimal step, and the rounding of each product, do not appear, so the model does not give the last-place error of the driver's result.
- `INA219_CALIBRATION_VALUE` (Inc/ina219_conf.h:50) is computed in floating point and truncated to `uint16_t`. It is a `Word` parameter of `Init`. The shunt resistance and correction factor (Inc/ina219_conf.h:41, 48) go with it.
- Build-time platform selection is left out. This covers the MCU `#if` chain (Inc/ina219.h:7-38), the `ENABLE_INA219` and `USE_FREERTOS` switches, and the `hi2c2` port handle.
- The `_IT` and `_DMA` accessors (Inc/ina219.h:119-126) are declared without definitions, so there is nothing to model.
- Driver.ToInt16: converting 0x8000..0xFFFF to `int16_t` is implementation-defined in C. The model uses the two's-complement wrap that the targeted compilers perform.
- CBits.Or: modelled only for operands below 2^16. That is the only range the driver uses it on, so its contract states bounds rather than full bitwise semantics. The bitwise meaning is in `CBits.OrBits` and `CBits.OrAdd`.
- Driver.GetBusVoltage: the overflow flag (bit 0) and conversion-ready flag (bit 1) of the bus voltage register are discarded, as the driver does. No error is reported for an overflowed conversion.
- Driver.Respond: the sensor answers from the same idealised register file. The conversions that fill its measurement registers are not modelled, so the register file's contents are arbitrary words.
- Driver.Apply: the sensor's side of a write is an idealised register file. The datasheet's read-only registers and the self-clearing reset bit are not modelled.
