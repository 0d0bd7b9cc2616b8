/**
 The INA219 register map and the bit-field layout of its 16-bit configuration
 register, as the driver header declares them: six register addresses, the reset
 flag and five option fields (bus voltage range, PGA gain, bus ADC, shunt ADC,
 operating mode), each option a code shifted into its field.
 */
module Registers {
  import opened CBits
  import opened Wrappers

  type Byte = x: nat | x < 256
  type Word = x: nat | x < 65536

  // ---------------------------------------------------------------- register map

  datatype Register = Config | ShuntVoltage | BusVoltage | Power | Current | Calibration

  /**
   The register pointer sent before each transfer (`CONFIG_REG` .. `CALIBRATION_REG`):
   the six registers take the six pointers 0x00 .. 0x05, in the order of the map.
   */
  function Address(r: Register): (a: Byte)
    ensures a <= 5
    ensures r == Config <==> a == 0x00
    ensures r == Calibration <==> a == 0x05
  {
    match r
    case Config => 0x00
    case ShuntVoltage => 0x01
    case BusVoltage => 0x02
    case Power => 0x03
    case Current => 0x04
    case Calibration => 0x05
  }

  /** The register a pointer value selects, if any: the inverse of `Address`. */
  function RegisterAt(a: nat): (r: Option<Register>)
    ensures r.Some? <==> a <= 5
    ensures r.Some? ==> Address(r.value) == a
  {
    if a == 0x00 then Some(Config)
    else if a == 0x01 then Some(ShuntVoltage)
    else if a == 0x02 then Some(BusVoltage)
    else if a == 0x03 then Some(Power)
    else if a == 0x04 then Some(Current)
    else if a == 0x05 then Some(Calibration)
    else None
  }

  /** Distinct registers have distinct addresses, so `RegisterAt` undoes `Address`. */
  lemma AddressInjective(r: Register, s: Register)
    ensures RegisterAt(Address(r)) == Some(r)
    ensures Address(r) == Address(s) ==> r == s
  {
  }

  // ---------------------------------------------------------------- configuration fields

  /** The fields of the configuration register; bit 14 belongs to none of them. */
  datatype FieldId = ResetField | BrngField | PgField | BadcField | SadcField | ModeField

  /** Lowest bit of a field: every field ends inside the 16-bit word. */
  function Lo(f: FieldId): (lo: nat)
    ensures lo + Width(f) <= 16
    ensures f == ResetField <==> lo == 15
  {
    match f
    case ResetField => 15
    case BrngField => 13
    case PgField => 11
    case BadcField => 7
    case SadcField => 3
    case ModeField => 0
  }

  /** Number of bits in a field: one for the flags, at most four for a code. */
  function Width(f: FieldId): (w: nat)
    ensures 1 <= w <= 4
    ensures w == 1 <==> f == ResetField || f == BrngField
  {
    match f
    case ResetField => 1
    case BrngField => 1
    case PgField => 2
    case BadcField => 4
    case SadcField => 4
    case ModeField => 3
  }

  /** Two fields share no bit, and every field lies inside the 16-bit word. */
  lemma FieldsDisjoint(f: FieldId, g: FieldId)
    ensures Lo(f) + Width(f) <= 16
    ensures f != g ==> Lo(f) + Width(f) <= Lo(g) || Lo(g) + Width(g) <= Lo(f)
  {
  }

  /** A value occupies only bits `lo .. hi-1`. */
  ghost predicate InBits(x: nat, lo: nat, hi: nat)
  {
    x % Pow2(lo) == 0 && x < Pow2(hi)
  }

  /** An option macro: `code << Lo(f)`. */
  function Place(f: FieldId, code: nat): (x: nat)
    requires code < Pow2(Width(f))
    ensures InBits(x, Lo(f), Lo(f) + Width(f))
  {
    ShiftedBits(code, Lo(f), Width(f));
    ShiftLeft(code, Lo(f))
  }

  /** A `width`-bit code shifted left by `lo` occupies bits `lo .. lo+width-1`. */
  lemma ShiftedBits(code: nat, lo: nat, width: nat)
    requires code < Pow2(width)
    ensures InBits(ShiftLeft(code, lo), lo, lo + width)
  {
    var pl, pw := Pow2(lo), Pow2(width);
    var x := code * pl;
    Pow2Add(lo, width);
    DivModUnique(x, pl, code, 0);
    MulMono(code + 1, pw, pl);
    MulDist(code, 1, pl);
    assert x < pl * pw;
  }

  /** The field `f` of the word `w`. */
  function Extract(w: nat, f: FieldId): (c: nat)
    ensures c < Pow2(Width(f))
  {
    BitField(w, Lo(f), Width(f))
  }

  /** `CONFIG_RESET`: bit 15. */
  function ConfigReset(): (x: nat)
    ensures x == 32768
  {
    assert Pow2(15) == 32768 by { Pow2Values(); }
    ShiftLeft(1, 15)
  }

  datatype BusRange = Range16V | Range32V

  function RangeCode(r: BusRange): nat
  {
    match r
    case Range16V => 0
    case Range32V => 1
  }

  function RangeOfCode(c: nat): (r: BusRange)
    requires c < 2
    ensures RangeCode(r) == c
  {
    if c == 0 then Range16V else Range32V
  }

  /** PGA gain, named by the full-scale shunt voltage it gives. */
  datatype Gain = Gain40mV | Gain80mV | Gain160mV | Gain320mV

  function GainCode(g: Gain): nat
  {
    match g
    case Gain40mV => 0
    case Gain80mV => 1
    case Gain160mV => 2
    case Gain320mV => 3
  }

  function GainOfCode(c: nat): (g: Gain)
    requires c < 4
    ensures GainCode(g) == c
  {
    if c == 0 then Gain40mV
    else if c == 1 then Gain80mV
    else if c == 2 then Gain160mV
    else Gain320mV
  }

  /** ADC resolution or averaging, shared by the bus (BADC) and shunt (SADC) fields. */
  datatype AdcSetting =
    | Adc9Bit | Adc10Bit | Adc11Bit | Adc12Bit
    | Adc12Bit2Samples | Adc12Bit4Samples | Adc12Bit8Samples | Adc12Bit16Samples
    | Adc12Bit32Samples | Adc12Bit64Samples | Adc12Bit128Samples

  function AdcCode(s: AdcSetting): nat
  {
    match s
    case Adc9Bit => 0
    case Adc10Bit => 1
    case Adc11Bit => 2
    case Adc12Bit => 3
    case Adc12Bit2Samples => 9
    case Adc12Bit4Samples => 10
    case Adc12Bit8Samples => 11
    case Adc12Bit16Samples => 12
    case Adc12Bit32Samples => 13
    case Adc12Bit64Samples => 14
    case Adc12Bit128Samples => 15
  }

  /** The setting a 4-bit ADC code names; the codes 4 to 8 have no macro. */
  function AdcOfCode(c: nat): (s: Option<AdcSetting>)
    ensures s.Some? <==> c <= 3 || 9 <= c <= 15
    ensures s.Some? ==> AdcCode(s.value) == c
  {
    match c
    case 0 => Some(Adc9Bit)
    case 1 => Some(Adc10Bit)
    case 2 => Some(Adc11Bit)
    case 3 => Some(Adc12Bit)
    case 9 => Some(Adc12Bit2Samples)
    case 10 => Some(Adc12Bit4Samples)
    case 11 => Some(Adc12Bit8Samples)
    case 12 => Some(Adc12Bit16Samples)
    case 13 => Some(Adc12Bit32Samples)
    case 14 => Some(Adc12Bit64Samples)
    case 15 => Some(Adc12Bit128Samples)
    case _ => None
  }

  datatype Mode =
    | PowerDown | ShuntTriggered | BusTriggered | ShuntBusTriggered
    | AdcOff | ShuntContinuous | BusContinuous | ShuntBusContinuous

  function ModeCode(m: Mode): nat
  {
    match m
    case PowerDown => 0
    case ShuntTriggered => 1
    case BusTriggered => 2
    case ShuntBusTriggered => 3
    case AdcOff => 4
    case ShuntContinuous => 5
    case BusContinuous => 6
    case ShuntBusContinuous => 7
  }

  function ModeOfCode(c: nat): (m: Mode)
    requires c < 8
    ensures ModeCode(m) == c
  {
    match c
    case 0 => PowerDown
    case 1 => ShuntTriggered
    case 2 => BusTriggered
    case 3 => ShuntBusTriggered
    case 4 => AdcOff
    case 5 => ShuntContinuous
    case 6 => BusContinuous
    case _ => ShuntBusContinuous
  }

  /** Every option has exactly one code, and decoding a code gives the option back. */
  lemma CodesRoundTrip(r: BusRange, g: Gain, s: AdcSetting, m: Mode)
    ensures RangeCode(r) < 2 && RangeOfCode(RangeCode(r)) == r
    ensures GainCode(g) < 4 && GainOfCode(GainCode(g)) == g
    ensures AdcOfCode(AdcCode(s)) == Some(s)
    ensures ModeCode(m) < 8 && ModeOfCode(ModeCode(m)) == m
  {
  }

  // The option macros of the header, one per field.

  /** `BVR_16V`, `BVR_32V`. */
  function Brng(r: BusRange): (x: nat)
    ensures x == RangeCode(r) * 8192
  {
    assert Pow2(13) == 8192 && Pow2(Width(BrngField)) > RangeCode(r) by { Pow2Values(); }
    Place(BrngField, RangeCode(r))
  }

  /** `GAIN_40MV` .. `GAIN_320MV`. */
  function Pg(g: Gain): (x: nat)
    ensures x == GainCode(g) * 2048
  {
    assert Pow2(11) == 2048 && Pow2(Width(PgField)) > GainCode(g) by { Pow2Values(); }
    Place(PgField, GainCode(g))
  }

  /** `BADC_9BIT` .. `BADC_12BIT_128SAMPLES`. */
  function Badc(s: AdcSetting): (x: nat)
    ensures x == AdcCode(s) * 128
  {
    assert Pow2(7) == 128 && Pow2(Width(BadcField)) > AdcCode(s) by { Pow2Values(); }
    Place(BadcField, AdcCode(s))
  }

  /** `SADC_9BIT` .. `SADC_12BIT_128SAMPLES`. */
  function Sadc(s: AdcSetting): (x: nat)
    ensures x == AdcCode(s) * 8
  {
    assert Pow2(3) == 8 && Pow2(Width(SadcField)) > AdcCode(s) by { Pow2Values(); }
    Place(SadcField, AdcCode(s))
  }

  /** `MODE_POWER_DOWN` .. `MODE_SHUNT_BUS_CONTINUOUS`. */
  function ModeBits(m: Mode): (x: nat)
    ensures x == ModeCode(m)
  {
    assert Pow2(0) == 1 && Pow2(3) == 8 by { Pow2Values(); }
    Place(ModeField, ModeCode(m))
  }

  /**
   The bus and shunt ADC tables use the same codes, shifted by 7 and by 3, so each
   SADC macro is the matching BADC macro shifted right by four.
   */
  lemma SadcIsBadcShifted(s: AdcSetting)
    ensures Sadc(s) == ShiftRight(Badc(s), 4)
    ensures Badc(s) == ShiftLeft(Sadc(s), 4)
  {
    Pow2Values();
    var c := AdcCode(s);
    DivModUnique(c * 128, 16, c * 8, 0);
  }

  /** The operating-mode macros are exactly the values 0 to 7. */
  lemma ModesAreLowThreeBits(m: Mode, c: nat)
    ensures ModeBits(m) == ModeCode(m) < 8
    ensures c < 8 ==> ModeBits(ModeOfCode(c)) == c
  {
    Pow2Values();
  }

  /** Every option macro, and the reset flag, stays inside the bits of its own field. */
  lemma MacrosInTheirFields(r: BusRange, g: Gain, s: AdcSetting, m: Mode)
    ensures InBits(ConfigReset(), 15, 16)
    ensures InBits(Brng(r), 13, 14) && InBits(Pg(g), 11, 13)
    ensures InBits(Badc(s), 7, 11) && InBits(Sadc(s), 3, 7) && InBits(ModeBits(m), 0, 3)
  {
    Pow2Values();
    DivModUnique(ConfigReset(), 32768, 1, 0);
    DivModUnique(Brng(r), 8192, RangeCode(r), 0);
    DivModUnique(Pg(g), 2048, GainCode(g), 0);
    DivModUnique(Badc(s), 128, AdcCode(s), 0);
    DivModUnique(Sadc(s), 8, AdcCode(s), 0);
  }

  // ---------------------------------------------------------------- configuration word

  /** One option chosen for every field of the configuration register. */
  datatype ConfigFields = ConfigFields(
    reset: bool,
    range: BusRange,
    gain: Gain,
    busAdc: AdcSetting,
    shuntAdc: AdcSetting,
    mode: Mode)

  function ResetCode(reset: bool): nat
  {
    if reset then 1 else 0
  }

  /** The weighted sum of the field codes: what `Pack` must equal when no two fields overlap. */
  function FieldSum(f: ConfigFields): nat
  {
    ResetCode(f.reset) * 32768 + RangeCode(f.range) * 8192 + GainCode(f.gain) * 2048
    + AdcCode(f.busAdc) * 128 + AdcCode(f.shuntAdc) * 8 + ModeCode(f.mode)
  }

  /**
   A configuration word composed the way the driver composes one: the macros of the
   chosen options joined with `|`, highest field first. Because the fields are disjoint
   the word is their plain sum and fits in a `uint16_t`.
   */
  function Pack(f: ConfigFields): (w: Word)
    ensures w == FieldSum(f)
  {
    OrChainIsSum(ResetCode(f.reset), RangeCode(f.range), GainCode(f.gain),
                 AdcCode(f.busAdc), AdcCode(f.shuntAdc), ModeCode(f.mode));
    var reset := if f.reset then ConfigReset() else 0;
    Or(Or(Or(Or(Or(reset, Brng(f.range)), Pg(f.gain)), Badc(f.busAdc)), Sadc(f.shuntAdc)), ModeBits(f.mode))
  }

  /** OR-ing in-range codes placed at the field positions, highest first, adds them. */
  lemma OrChainIsSum(rc: nat, bc: nat, gc: nat, ba: nat, sa: nat, mc: nat)
    requires rc < 2 && bc < 2 && gc < 4 && ba < 16 && sa < 16 && mc < 8
    ensures Or(Or(Or(Or(Or(rc * 32768, bc * 8192), gc * 2048), ba * 128), sa * 8), mc)
         == rc * 32768 + bc * 8192 + gc * 2048 + ba * 128 + sa * 8 + mc
  {
    Pow2Values();
    var w1 := Or(rc * 32768, bc * 8192);
    assert w1 == rc * 32768 + bc * 8192 by {
      DivModUnique(rc * 32768, 16384, 2 * rc, 0);
      OrAdd(rc * 32768, bc * 8192, 14);
    }
    var w2 := Or(w1, gc * 2048);
    assert w2 == w1 + gc * 2048 by {
      DivModUnique(w1, 8192, 4 * rc + bc, 0);
      OrAdd(w1, gc * 2048, 13);
    }
    var w3 := Or(w2, ba * 128);
    assert w3 == w2 + ba * 128 by {
      DivModUnique(w2, 2048, 16 * rc + 4 * bc + gc, 0);
      OrAdd(w2, ba * 128, 11);
    }
    var w4 := Or(w3, sa * 8);
    assert w4 == w3 + sa * 8 by {
      DivModUnique(w3, 128, 256 * rc + 64 * bc + 16 * gc + ba, 0);
      OrAdd(w3, sa * 8, 7);
    }
    DivModUnique(w4, 8, 4096 * rc + 1024 * bc + 256 * gc + 16 * ba + sa, 0);
    OrAdd(w4, mc, 3);
  }

  /**
   The fields of a configuration word, when it has one of the header's options in
   every field; `None` when the unused bit 14 is set or an ADC field holds a code
   (4 to 8) for which the header defines no macro.
   */
  function Unpack(w: Word): Option<ConfigFields>
  {
    Pow2Values();
    var bus := AdcOfCode(Extract(w, BadcField));
    var shunt := AdcOfCode(Extract(w, SadcField));
    if BitField(w, 14, 1) != 0 || bus.None? || shunt.None? then None
    else
      Some(ConfigFields(
             Extract(w, ResetField) == 1,
             RangeOfCode(Extract(w, BrngField)),
             GainOfCode(Extract(w, PgField)),
             bus.value,
             shunt.value,
             ModeOfCode(Extract(w, ModeField))))
  }

  /** Each field of a weighted sum of in-range codes reads back as its own code. */
  lemma FieldsOfSum(rc: nat, bc: nat, gc: nat, ba: nat, sa: nat, mc: nat)
    requires rc < 2 && bc < 2 && gc < 4 && ba < 16 && sa < 16 && mc < 8
    ensures var w := rc * 32768 + bc * 8192 + gc * 2048 + ba * 128 + sa * 8 + mc;
      && BitField(w, 15, 1) == rc && BitField(w, 14, 1) == 0 && BitField(w, 13, 1) == bc
      && BitField(w, 11, 2) == gc && BitField(w, 7, 4) == ba && BitField(w, 3, 4) == sa
      && BitField(w, 0, 3) == mc
  {
    HighFieldsOfSum(rc, bc, gc, ba * 128 + sa * 8 + mc);
    LowFieldsOfSum(rc * 16 + bc * 4 + gc, ba, sa, mc);
  }

  /** The fields from bit 11 up of `rc`, a clear bit 14, `bc` and `gc` above eleven low bits. */
  lemma HighFieldsOfSum(rc: nat, bc: nat, gc: nat, low: nat)
    requires rc < 2 && bc < 2 && gc < 4 && low < 2048
    ensures var w := rc * 32768 + bc * 8192 + gc * 2048 + low;
      && BitField(w, 15, 1) == rc && BitField(w, 14, 1) == 0
      && BitField(w, 13, 1) == bc && BitField(w, 11, 2) == gc
  {
    Pow2Values();
    var w := rc * 32768 + bc * 8192 + gc * 2048 + low;
    assert BitField(w, 15, 1) == rc by {
      BitFieldOf(0, rc, bc * 8192 + gc * 2048 + low, 15, 1);
    }
    assert BitField(w, 14, 1) == 0 by {
      BitFieldOf(rc, 0, bc * 8192 + gc * 2048 + low, 14, 1);
    }
    assert BitField(w, 13, 1) == bc by {
      BitFieldOf(2 * rc, bc, gc * 2048 + low, 13, 1);
    }
    assert BitField(w, 11, 2) == gc by {
      BitFieldOf(4 * rc + bc, gc, low, 11, 2);
    }
  }

  /** The fields below bit 11 of some high bits followed by `ba`, `sa` and `mc`. */
  lemma LowFieldsOfSum(high: nat, ba: nat, sa: nat, mc: nat)
    requires ba < 16 && sa < 16 && mc < 8
    ensures var w := high * 2048 + ba * 128 + sa * 8 + mc;
      && BitField(w, 7, 4) == ba && BitField(w, 3, 4) == sa && BitField(w, 0, 3) == mc
  {
    Pow2Values();
    var w := high * 2048 + ba * 128 + sa * 8 + mc;
    assert BitField(w, 7, 4) == ba by {
      BitFieldOf(high, ba, sa * 8 + mc, 7, 4);
    }
    assert BitField(w, 3, 4) == sa by {
      BitFieldOf(high * 16 + ba, sa, mc, 3, 4);
    }
    assert BitField(w, 0, 3) == mc by {
      BitFieldOf(high * 256 + ba * 16 + sa, mc, 0, 0, 3);
    }
  }

  /** A word that is the weighted sum of some fields' codes unpacks to those fields. */
  lemma UnpackFieldSum(w: Word, f: ConfigFields)
    requires w == FieldSum(f)
    ensures Unpack(w) == Some(f)
  {
    var rc, bc, gc := ResetCode(f.reset), RangeCode(f.range), GainCode(f.gain);
    var ba, sa, mc := AdcCode(f.busAdc), AdcCode(f.shuntAdc), ModeCode(f.mode);
    CodesRoundTrip(f.range, f.gain, f.busAdc, f.mode);
    CodesRoundTrip(f.range, f.gain, f.shuntAdc, f.mode);
    FieldsOfSum(rc, bc, gc, ba, sa, mc);
    assert Extract(w, ResetField) == rc;
    assert Extract(w, BrngField) == bc;
    assert Extract(w, PgField) == gc;
    assert Extract(w, BadcField) == ba;
    assert Extract(w, SadcField) == sa;
    assert Extract(w, ModeField) == mc;
  }

  /** Every field of a packed word can be extracted back unchanged. */
  lemma UnpackPack(f: ConfigFields)
    ensures Unpack(Pack(f)) == Some(f)
  {
    UnpackFieldSum(Pack(f), f);
  }

  /** A 16-bit word is the weighted sum of its fields and of its unused bit 14. */
  lemma WordOfFields(w: Word)
    ensures w == BitField(w, 15, 1) * 32768 + BitField(w, 14, 1) * 16384
               + BitField(w, 13, 1) * 8192 + BitField(w, 11, 2) * 2048
               + BitField(w, 7, 4) * 128 + BitField(w, 3, 4) * 8 + BitField(w, 0, 3)
  {
    Pow2Values();
    assert w % Pow2(16) == w;
    assert w % Pow2(16) == BitField(w, 15, 1) * 32768 + w % Pow2(15) by { ModSplit(w, 15, 1); }
    assert w % Pow2(15) == BitField(w, 14, 1) * 16384 + w % Pow2(14) by { ModSplit(w, 14, 1); }
    assert w % Pow2(14) == BitField(w, 13, 1) * 8192 + w % Pow2(13) by { ModSplit(w, 13, 1); }
    assert w % Pow2(13) == BitField(w, 11, 2) * 2048 + w % Pow2(11) by { ModSplit(w, 11, 2); }
    assert w % Pow2(11) == BitField(w, 7, 4) * 128 + w % Pow2(7) by { ModSplit(w, 7, 4); }
    assert w % Pow2(7) == BitField(w, 3, 4) * 8 + w % Pow2(3) by { ModSplit(w, 3, 4); }
    assert w % Pow2(3) == BitField(w, 0, 3) by {
      ModSplit(w, 0, 3);
      assert Pow2(0) == 1;
    }
  }

  /** A word unpacks to some fields only when bit 14 is clear and every field holds its code. */
  lemma UnpackCodes(w: Word, f: ConfigFields)
    requires Unpack(w) == Some(f)
    ensures BitField(w, 14, 1) == 0
    ensures ResetCode(f.reset) == Extract(w, ResetField) && RangeCode(f.range) == Extract(w, BrngField)
    ensures GainCode(f.gain) == Extract(w, PgField) && ModeCode(f.mode) == Extract(w, ModeField)
    ensures AdcCode(f.busAdc) == Extract(w, BadcField) && AdcCode(f.shuntAdc) == Extract(w, SadcField)
  {
  }

  /** A word that unpacks to some fields is exactly the packing of those fields. */
  lemma PackUnpack(w: Word, f: ConfigFields)
    requires Unpack(w) == Some(f)
    ensures Pack(f) == w
  {
    UnpackCodes(w, f);
    WordOfFields(w);
    assert FieldSum(f) == w;
  }
}
