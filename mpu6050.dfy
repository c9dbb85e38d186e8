/** The MPU6050 driver's decoding of register bytes: two bytes combined into a
    16-bit value and then made "signed", and the 14-byte block that holds the
    accelerometer and gyroscope axes. The I2C bus itself is not modelled: the
    bytes it returns are inputs. */
module Mpu6050 {
  import opened Wrappers

  newtype byte = x: int | 0 <= x < 256

  /** Sensitivity of the accelerometer at its +-2g range, in LSB per g. */
  const AccelScale: real := 16384.0
  /** Sensitivity of the gyroscope at its +-250 deg/s range, in LSB per deg/s. */
  const GyroScale: real := 131.0

  function Pow2(k: nat): (p: nat)
    ensures p >= 1
  {
    if k == 0 then 1 else 2 * Pow2(k - 1)
  }

  /** Python's `a | b` on non-negative integers, bit by bit from the lowest. */
  function BitOr(a: nat, b: nat): nat
    decreases a + b
  {
    if a == 0 && b == 0 then 0
    else 2 * BitOr(a / 2, b / 2) + (if a % 2 == 1 || b % 2 == 1 then 1 else 0)
  }

  /** Python's `a << k`. */
  function ShiftLeft(a: nat, k: nat): nat {
    a * Pow2(k)
  }

  /** `(high << 8) | low`. */
  function Combine(high: byte, low: byte): nat {
    BitOr(ShiftLeft(high as nat, 8), low as nat)
  }

  lemma {:induction false} BitOrZero(a: nat)
    ensures BitOr(a, 0) == a
    decreases a
  {
    if a != 0 {
      BitOrZero(a / 2);
    }
  }

  /** Or-ing a value below 2^k into a multiple of 2^k adds it. */
  lemma {:induction false} BitOrDisjoint(h: nat, l: nat, k: nat)
    requires l < Pow2(k)
    ensures BitOr(h * Pow2(k), l) == h * Pow2(k) + l
    decreases k
  {
    if k == 0 {
      BitOrZero(h);
    } else {
      var a := h * Pow2(k);
      assert a == 2 * (h * Pow2(k - 1));
      assert a / 2 == h * Pow2(k - 1) && a % 2 == 0;
      BitOrDisjoint(h, l / 2, k - 1);
      if a != 0 || l != 0 {
        assert BitOr(a, l) == 2 * BitOr(a / 2, l / 2) + (if l % 2 == 1 then 1 else 0);
      }
    }
  }

  /** The shift-and-or is plain arithmetic on bytes, and stays below 2^16. */
  lemma CombineIsArithmetic(high: byte, low: byte)
    ensures Combine(high, low) == high as int * 256 + low as int
    ensures Combine(high, low) < 65536
  {
    assert Pow2(8) == 256;
    BitOrDisjoint(high as nat, low as nat, 8);
  }

  /** `_convert_raw`: the combined value, minus 65536 above 32768. */
  function ConvertRaw(high: byte, low: byte): int {
    var value := Combine(high, low);
    if value > 32768 then value - 65536 else value
  }

  /** Values up to 32768 come back unchanged, larger ones lowered by 65536, so
      every result lies in [-32767, 32768]. */
  lemma ConvertRawSpec(high: byte, low: byte)
    ensures var v := high as int * 256 + low as int;
            ConvertRaw(high, low) == if v > 32768 then v - 65536 else v
    ensures -32767 <= ConvertRaw(high, low) <= 32768
  {
    CombineIsArithmetic(high, low);
  }

  /** `read_raw_data`: the register at `addr` is the high byte and the one at
      `addr + 1` the low byte; `regs` stands for the device's register file.
      It decodes the two bytes exactly as `_convert_raw` does. */
  function ReadRawData(regs: map<int, byte>, addr: int): (r: Option<int>)
    ensures r.Some? <==> addr in regs && addr + 1 in regs
    ensures r.Some? ==> r.value == ConvertRaw(regs[addr], regs[addr + 1])
  {
    if addr in regs && addr + 1 in regs then
      var value := Combine(regs[addr], regs[addr + 1]);
      Some(if value > 32768 then value - 65536 else value)
    else None
  }

  /** Three axes of one sensor, in physical units. */
  datatype Triple = Triple(x: real, y: real, z: real)

  datatype Motion = Motion(accel: Triple, gyro: Triple)

  /** One axis: the decoded pair over the sensitivity, decoded as written or,
      when `corrected`, in two's complement. */
  function Scaled(high: byte, low: byte, scale: real, corrected: bool): real
    requires scale != 0.0
  {
    (if corrected then TwosComplement(high, low) else ConvertRaw(high, low)) as real / scale
  }

  /** The 14 bytes read from ACCEL_XOUT_H on, decoded into the six axes; None
      when the block is short (the indexing would raise). */
  function Block(data: seq<byte>, corrected: bool): Option<Motion> {
    if |data| < 14 then None
    else Some(Motion(
      Triple(Scaled(data[0], data[1], AccelScale, corrected),
             Scaled(data[2], data[3], AccelScale, corrected),
             Scaled(data[4], data[5], AccelScale, corrected)),
      Triple(Scaled(data[8], data[9], GyroScale, corrected),
             Scaled(data[10], data[11], GyroScale, corrected),
             Scaled(data[12], data[13], GyroScale, corrected))))
  }

  /** `read_all` as written, with `_convert_raw`. */
  function ReadAll(data: seq<byte>): Option<Motion> {
    Block(data, false)
  }

  /** `read_all` needs 14 bytes; the accelerometer comes from the pairs (0,1),
      (2,3), (4,5), the gyroscope from (8,9), (10,11), (12,13). */
  lemma ReadAllLayout(data: seq<byte>)
    ensures ReadAll(data).Some? <==> |data| >= 14
    ensures |data| >= 14 ==>
      && ReadAll(data).value.accel == Triple(ConvertRaw(data[0], data[1]) as real / AccelScale,
                                             ConvertRaw(data[2], data[3]) as real / AccelScale,
                                             ConvertRaw(data[4], data[5]) as real / AccelScale)
      && ReadAll(data).value.gyro == Triple(ConvertRaw(data[8], data[9]) as real / GyroScale,
                                            ConvertRaw(data[10], data[11]) as real / GyroScale,
                                            ConvertRaw(data[12], data[13]) as real / GyroScale)
  {
  }

  /** Bytes 6 and 7 (the temperature registers) do not affect `read_all`. */
  lemma ReadAllIgnoresTemperature(data: seq<byte>, t1: byte, t2: byte)
    requires |data| >= 14
    ensures ReadAll(data[6 := t1][7 := t2]) == ReadAll(data)
  {
    var d := data[6 := t1][7 := t2];
    assert forall i :: 0 <= i < 14 && i != 6 && i != 7 ==> d[i] == data[i];
  }

  // ---------------------------------------------------------------------
  // The 0x8000 case
  // ---------------------------------------------------------------------

  /** The converter as written turns 0x8000 into +32768 and never yields
      -32768, though the register holds a two's-complement value. */
  lemma ConvertRawMinimumIsPositive()
    ensures ConvertRaw(0x80, 0x00) == 32768
    ensures forall h, l: byte :: ConvertRaw(h, l) != -32768
  {
    CombineIsArithmetic(0x80, 0x00);
    forall h, l: byte ensures ConvertRaw(h, l) != -32768 {
      ConvertRawSpec(h, l);
    }
  }

  /** Two's-complement decoding of the 16-bit register value. */
  function TwosComplement(high: byte, low: byte): (v: int)
    ensures -32768 <= v <= 32767
  {
    CombineIsArithmetic(high, low);
    var value := Combine(high, low);
    if value >= 32768 then value - 65536 else value
  }

  /** Encodes a value of the 16-bit signed range into its two register bytes. */
  function Encode(v: int): (r: (byte, byte))
    requires -32768 <= v <= 32767
  {
    var u := if v < 0 then v + 65536 else v;
    ((u / 256) as byte, (u % 256) as byte)
  }

  /** Two's-complement decoding inverts encoding, on the full range. */
  lemma TwosComplementRoundTrip(v: int)
    requires -32768 <= v <= 32767
    ensures TwosComplement(Encode(v).0, Encode(v).1) == v
  {
    var (h, l) := Encode(v);
    CombineIsArithmetic(h, l);
  }

  /** And encoding inverts decoding on every pair of bytes. */
  lemma EncodeRoundTrip(high: byte, low: byte)
    ensures Encode(TwosComplement(high, low)) == (high, low)
  {
    CombineIsArithmetic(high, low);
  }

  /** The two converters differ on the pair 0x80, 0x00 only. */
  lemma ConvertersAgreeExceptMinimum(high: byte, low: byte)
    ensures ConvertRaw(high, low) == TwosComplement(high, low) <==> !(high == 0x80 && low == 0x00)
  {
    CombineIsArithmetic(high, low);
  }

  /** `read_all` with two's-complement decoding. */
  function ReadAllCorrected(data: seq<byte>): Option<Motion> {
    Block(data, true)
  }

  /** The corrected reading gives every axis in the sensor's signed range and
      agrees with `read_all` unless some axis pair is 0x80, 0x00. */
  lemma ReadAllCorrectedSpec(data: seq<byte>)
    requires |data| >= 14
    ensures ReadAllCorrected(data).Some?
    ensures var m := ReadAllCorrected(data).value;
            && -2.0 <= m.accel.x < 2.0 && -2.0 <= m.accel.y < 2.0 && -2.0 <= m.accel.z < 2.0
    ensures (forall i :: i in {0, 2, 4, 8, 10, 12} ==> !(data[i] == 0x80 && data[i + 1] == 0x00)) ==>
              ReadAllCorrected(data) == ReadAll(data)
  {
    forall i | i in {0, 2, 4, 8, 10, 12} {
      ConvertersAgreeExceptMinimum(data[i], data[i + 1]);
    }
  }
}
