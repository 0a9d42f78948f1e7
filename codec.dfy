/** Sample codec: conversions between normalised float samples and the
    fixed-point PCM integers written to and read from the device.
    `float` is idealised as `real` and `floorf` as `.Floor`. */
module SampleCodec {

  /** The C `int16_t` and `int32_t` types. */
  type Int16 = x: int | -0x8000 <= x <= 0x7fff
  type Int32 = x: int | -0x8000_0000 <= x <= 0x7fff_ffff

  /** snd_pcm_format_t as the program uses it.  Only the first three are ever
      selected; any other code is kept so that the branches that handle it
      can be modelled. */
  datatype Format = S16 | S24 | S32 | OtherFormat(code: int)

  const Scale16: real := 32768.0
  /** The 24-bit scale is 2^22, as the source has it (true S24 would be 2^23). */
  const Scale24: real := 4194304.0
  const Scale32: real := 2147483648.0

  /** float_to_int16: saturate at full scale, otherwise scale and floor. */
  function FloatToInt16(v: real): (r: Int16)
    ensures v >= 1.0 ==> r == 0x7fff
    ensures v <= -1.0 ==> r == -0x8000
    ensures -1.0 < v < 1.0 ==> r as real <= v * Scale16 < r as real + 1.0
  {
    if v >= 1.0 then 0x7fff
    else if v <= -1.0 then -0x8000
    else (v * Scale16).Floor
  }

  /** float_to_int24: same shape, into a 32-bit container, range [-2^22, 2^22 - 1]. */
  function FloatToInt24(v: real): (r: Int32)
    ensures -4194304 <= r <= 4194303
    ensures v >= 1.0 ==> r == 4194303
    ensures v <= -1.0 ==> r == -4194304
    ensures -1.0 < v < 1.0 ==> r as real <= v * Scale24 < r as real + 1.0
  {
    if v >= 1.0 then 4194303
    else if v <= -1.0 then -4194304
    else (v * Scale24).Floor
  }

  /** float_to_int32. */
  function FloatToInt32(v: real): (r: Int32)
    ensures v >= 1.0 ==> r == 0x7fff_ffff
    ensures v <= -1.0 ==> r == -0x8000_0000
    ensures -1.0 < v < 1.0 ==> r as real <= v * Scale32 < r as real + 1.0
  {
    if v >= 1.0 then 0x7fff_ffff
    else if v <= -1.0 then -0x8000_0000
    else (v * Scale32).Floor
  }

  /** int16_to_float: the exact inverse scaling, always in [-1, 1). */
  function Int16ToFloat(x: Int16): (f: real)
    ensures -1.0 <= f < 1.0
    ensures f * Scale16 == x as real
  {
    x as real / Scale16
  }

  /** int24_to_float: in [-1, 1) only for containers holding a value of the
      2^22 range; a full-range 32-bit container maps into [-512, 512). */
  function Int24ToFloat(x: Int32): (f: real)
    ensures -512.0 <= f < 512.0
    ensures -4194304 <= x <= 4194303 ==> -1.0 <= f < 1.0
    ensures f * Scale24 == x as real
  {
    x as real / Scale24
  }

  /** int32_to_float. */
  function Int32ToFloat(x: Int32): (f: real)
    ensures -1.0 <= f < 1.0
    ensures f * Scale32 == x as real
  {
    x as real / Scale32
  }

  lemma RoundTrip16(x: Int16)
    ensures FloatToInt16(Int16ToFloat(x)) == x
  {
    var f := Int16ToFloat(x);
    if x == -0x8000 {
      assert f == -1.0;
    } else {
      assert -1.0 < f;
      assert (f * Scale16).Floor == x;
    }
  }

  lemma RoundTrip24(x: Int32)
    requires -4194304 <= x <= 4194303
    ensures FloatToInt24(Int24ToFloat(x)) == x
  {
    var f := Int24ToFloat(x);
    if x == -4194304 {
      assert f == -1.0;
    } else {
      assert -1.0 < f;
      assert (f * Scale24).Floor == x;
    }
  }

  lemma RoundTrip32(x: Int32)
    ensures FloatToInt32(Int32ToFloat(x)) == x
  {
    var f := Int32ToFloat(x);
    if x == -0x8000_0000 {
      assert f == -1.0;
    } else {
      assert -1.0 < f;
      assert (f * Scale32).Floor == x;
    }
  }

  /** Every float_to_intN is non-decreasing. */
  lemma Monotone(a: real, b: real)
    requires a <= b
    ensures FloatToInt16(a) <= FloatToInt16(b)
    ensures FloatToInt24(a) <= FloatToInt24(b)
    ensures FloatToInt32(a) <= FloatToInt32(b)
  {
  }

  /** Decoding an encoded sample loses less than one quantisation step and
      never goes above the input. */
  lemma QuantisationError16(v: real)
    requires -1.0 < v < 1.0
    ensures Int16ToFloat(FloatToInt16(v)) <= v < Int16ToFloat(FloatToInt16(v)) + 1.0 / Scale16
  {
  }
}
