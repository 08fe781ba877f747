/**
 * nn/nn_utils.c: the first-maximum index search over integer and float
 * arrays, the fixed-point to float conversions that divide by 2^q, and the
 * float to fixed-point conversions that scale and round half away from zero.
 */
module NnUtils {
  import opened Numeric

  /** `i` is the earliest position holding the largest element of `a`. */
  predicate IsFirstMaxInt(a: seq<int>, i: int) {
    && 0 <= i < |a|
    && (forall k :: 0 <= k < |a| ==> a[k] <= a[i])
    && (forall k :: 0 <= k < i ==> a[k] < a[i])
  }

  /** `i` is the earliest position holding the largest element of `a`. */
  predicate IsFirstMaxReal(a: seq<real>, i: int) {
    && 0 <= i < |a|
    && (forall k :: 0 <= k < |a| ==> a[k] <= a[i])
    && (forall k :: 0 <= k < i ==> a[k] < a[i])
  }

  /**
   * nn_utils_find_max_index_int: the first element is the running maximum,
   * each later element replaces it only when strictly larger, and the index
   * recorded is len - blk_cnt, the position of the element just loaded.
   */
  method FindMaxIndexInt(a: seq<int>) returns (outIdx: int)
    requires |a| >= 1
    ensures IsFirstMaxInt(a, outIdx)
  {
    var len := |a|;
    outIdx := 0;
    var maxVal := a[0];
    var blkCnt := len - 1;
    while blkCnt > 0
      invariant 0 <= blkCnt <= len - 1
      invariant 0 <= outIdx < len - blkCnt && maxVal == a[outIdx]
      invariant forall k :: 0 <= k < len - blkCnt ==> a[k] <= maxVal
      invariant forall k :: 0 <= k < outIdx ==> a[k] < maxVal
    {
      var curVal := a[len - blkCnt];
      if maxVal < curVal {
        maxVal := curVal;
        outIdx := len - blkCnt;
      }
      blkCnt := blkCnt - 1;
    }
  }

  /** nn_utils_find_max_index_flt: the same search over floats. */
  method FindMaxIndexFlt(a: seq<real>) returns (outIdx: int)
    requires |a| >= 1
    ensures IsFirstMaxReal(a, outIdx)
  {
    var len := |a|;
    outIdx := 0;
    var maxVal := a[0];
    var blkCnt := len - 1;
    while blkCnt > 0
      invariant 0 <= blkCnt <= len - 1
      invariant 0 <= outIdx < len - blkCnt && maxVal == a[outIdx]
      invariant forall k :: 0 <= k < len - blkCnt ==> a[k] <= maxVal
      invariant forall k :: 0 <= k < outIdx ==> a[k] < maxVal
    {
      var curVal := a[len - blkCnt];
      if maxVal < curVal {
        maxVal := curVal;
        outIdx := len - blkCnt;
      }
      blkCnt := blkCnt - 1;
    }
  }

  /** The first maximum is unique: the searches' contract pins their answer down. */
  lemma FirstMaxIsUnique(a: seq<real>, i: int, j: int)
    requires IsFirstMaxReal(a, i) && IsFirstMaxReal(a, j)
    ensures i == j
  {
    assert a[i] <= a[j] && a[j] <= a[i];
  }

  /** A one-element array answers 0. */
  lemma SingleElementAnswersZero(a: seq<real>, i: int)
    requires |a| == 1 && IsFirstMaxReal(a, i)
    ensures i == 0
  {
  }

  /** One fixed-point value in floating point: k times 1/2^q. */
  function Dequantize(k: int, q: nat): (v: real)
    ensures v * Pow2(q) as real == k as real
  {
    k as real / Pow2(q) as real
  }

  /** nn_utils_convert_int16_to_flt: every element multiplied by 1/(1 << q), order kept. */
  function ConvertInt16ToFlt(ins: seq<Int16>, q: nat): (r: seq<real>)
    requires q < 31
    ensures |r| == |ins|
    ensures forall k :: 0 <= k < |ins| ==> r[k] * Pow2(q) as real == ins[k] as real
  {
    seq(|ins|, k requires 0 <= k < |ins| => Dequantize(ins[k] as int, q))
  }

  /**
   * nn_utils_convert_int8_to_flt: every element multiplied by 1/(1 << q),
   * order kept; the same conversion as the int16 one on the widened values.
   */
  function ConvertInt8ToFlt(ins: seq<Int8>, q: nat): (r: seq<real>)
    requires q < 31
    ensures |r| == |ins|
    ensures forall k :: 0 <= k < |ins| ==> r[k] * Pow2(q) as real == ins[k] as real
  {
    ConvertInt16ToFlt(seq(|ins|, k requires 0 <= k < |ins| => ins[k] as int as Int16), q)
  }

  /**
   * One value scaled by `scale` and rounded the way nn_utils.c does it:
   * add 0.5 when the value is not negative, subtract 0.5 otherwise, then
   * truncate. The result is the nearest integer to v*scale, halves going
   * away from zero.
   */
  function Quantize(v: real, scale: real): (r: int)
    ensures 0.0 <= scale ==> -0.5 <= r as real - v * scale <= 0.5
    ensures 0.0 <= scale && 0.0 <= v ==> r as real - 0.5 <= v * scale < r as real + 0.5
    ensures 0.0 <= scale && v < 0.0 ==> r as real - 0.5 < v * scale <= r as real + 0.5
  {
    var x := v * scale;
    if 0.0 <= v then Trunc(x + 0.5) else Trunc(x - 0.5)
  }

  /** Rounding is odd: negating the input negates the result. */
  lemma QuantizeIsOdd(v: real, scale: real)
    requires scale > 0.0
    ensures Quantize(-v, scale) == -Quantize(v, scale)
  {
    if v == 0.0 {
      assert Quantize(-v, scale) == 0 == Quantize(v, scale);
    }
  }

  /** Values in [-1, 1] scaled by a whole number `n` stay in [-n, n]. */
  lemma QuantizeInRange(v: real, n: nat)
    requires -1.0 <= v <= 1.0
    ensures -(n as int) <= Quantize(v, n as real) <= n
  {
    QuantizeNear(v, n as real);
    WithinHalf(Quantize(v, n as real), n);
  }

  /** Values in [-1, 1] scaled by `m` round into [-m - 1/2, m + 1/2]. */
  lemma QuantizeNear(v: real, m: real)
    requires -1.0 <= v <= 1.0 && 0.0 <= m
    ensures -m - 0.5 <= Quantize(v, m) as real <= m + 0.5
  {
    UnitTimesScale(v, m);
    RoundedNear(v * m, 0.0 <= v, m);
  }

  /** Rounding half away from zero a point of [-m, m] whose sign is `up`. */
  lemma RoundedNear(x: real, up: bool, m: real)
    requires -m <= x <= m && (up ==> 0.0 <= x) && (!up ==> x <= 0.0)
    ensures -m - 0.5 <= (if up then Trunc(x + 0.5) else Trunc(x - 0.5)) as real <= m + 0.5
  {
  }

  /** A point of [-n, n] moved half a step either way and truncated: within 1.5 of it, inside [-n, n]. */
  lemma ShiftedTruncNear(x: real, up: bool, n: nat, r: int)
    requires -(n as real) <= x <= n as real
    requires r == if up then Trunc(x + 0.5) else Trunc(x - 0.5)
    ensures -(n as int) <= r <= n && -1.5 < r as real - x < 1.5
  {
    assert -(n as real) - 0.5 <= r as real <= n as real + 0.5;
    WithinHalf(r, n);
  }

  /** An integer within half of [-n, n] lies in [-n, n]. */
  lemma WithinHalf(r: int, n: nat)
    requires -(n as real) - 0.5 <= r as real <= n as real + 0.5
    ensures -(n as int) <= r <= n
  {
  }

  /** Scaling by 2^q undoes the conversion by 1/2^q: every integer comes back unchanged. */
  lemma QuantizeUndoesDequantize(k: int, q: nat)
    ensures Quantize(Dequantize(k, q), Pow2(q) as real) == k
  {
    var p := Pow2(q) as real;
    if k < 0 {
      NegativeOverPositive(k as real, p);
    } else {
      NonNegativeOverPositive(k as real, p);
    }
    QuantizeOfWhole(Dequantize(k, q), p, k);
  }

  /** A value that scales to a whole number rounds to exactly that number. */
  lemma QuantizeOfWhole(v: real, p: real, k: int)
    requires v * p == k as real && (0.0 <= v <==> 0 <= k)
    ensures Quantize(v, p) == k
  {
    if 0.0 <= v {
      assert Quantize(v, p) == Trunc(k as real + 0.5);
    } else {
      assert Quantize(v, p) == Trunc(k as real - 0.5);
    }
  }

  lemma UnitTimesScale(v: real, m: real)
    requires -1.0 <= v <= 1.0 && 0.0 <= m
    ensures -m <= v * m <= m
    ensures 0.0 <= v ==> 0.0 <= v * m
    ensures v < 0.0 ==> v * m <= 0.0
  {
    assert m - v * m == (1.0 - v) * m;
    assert m + v * m == (1.0 + v) * m;
  }

  lemma NegativeOverPositive(x: real, p: real)
    requires x < 0.0 && p > 0.0
    ensures x / p < 0.0
  {
  }

  lemma NonNegativeOverPositive(x: real, p: real)
    requires x >= 0.0 && p > 0.0
    ensures x / p >= 0.0
  {
  }

  /** Every element of `ins` quantizes to a value `lo <= r <= hi`. */
  predicate QuantizesWithin(ins: seq<real>, scale: real, lo: int, hi: int) {
    forall k :: 0 <= k < |ins| ==> lo <= Quantize(ins[k], scale) <= hi
  }

  /**
   * nn_utils_convert_flt_to_int16 with the sign of element k tested on
   * element k: each element scaled by `scale` and rounded half away from zero.
   * Narrowing an out-of-range value is left to the implementation in C, so
   * the results must fit int16_t.
   */
  function ConvertFltToInt16(ins: seq<real>, scale: real): (r: seq<Int16>)
    requires QuantizesWithin(ins, scale, -32768, 32767)
    ensures |r| == |ins|
    ensures 0.0 <= scale ==> forall k :: 0 <= k < |ins| ==> -0.5 <= r[k] as real - ins[k] * scale <= 0.5
    ensures forall k :: 0 <= k < |ins| ==> r[k] as int == Quantize(ins[k], scale)
  {
    seq(|ins|, k requires 0 <= k < |ins| => Quantize(ins[k], scale) as Int16)
  }

  /** nn_utils_convert_flt_to_int8 with the sign of element k tested on element k. */
  function ConvertFltToInt8(ins: seq<real>, scale: real): (r: seq<Int8>)
    requires QuantizesWithin(ins, scale, -128, 127)
    ensures |r| == |ins|
    ensures 0.0 <= scale ==> forall k :: 0 <= k < |ins| ==> -0.5 <= r[k] as real - ins[k] * scale <= 0.5
    ensures forall k :: 0 <= k < |ins| ==> r[k] as int == Quantize(ins[k], scale)
  {
    seq(|ins|, k requires 0 <= k < |ins| => Quantize(ins[k], scale) as Int8)
  }

  /** Dequantizing and quantizing again gives back the int16 array. */
  lemma Int16RoundTrip(ins: seq<Int16>, q: nat)
    requires q < 31
    ensures QuantizesWithin(ConvertInt16ToFlt(ins, q), Pow2(q) as real, -32768, 32767)
    ensures ConvertFltToInt16(ConvertInt16ToFlt(ins, q), Pow2(q) as real) == ins
  {
    var vs := ConvertInt16ToFlt(ins, q);
    forall k | 0 <= k < |ins|
      ensures Quantize(vs[k], Pow2(q) as real) == ins[k] as int
    {
      QuantizeUndoesDequantize(ins[k] as int, q);
    }
  }

  /** Dequantizing and quantizing again gives back the int8 array. */
  lemma Int8RoundTrip(ins: seq<Int8>, q: nat)
    requires q < 31
    ensures QuantizesWithin(ConvertInt8ToFlt(ins, q), Pow2(q) as real, -128, 127)
    ensures ConvertFltToInt8(ConvertInt8ToFlt(ins, q), Pow2(q) as real) == ins
  {
    var vs := ConvertInt8ToFlt(ins, q);
    forall k | 0 <= k < |ins|
      ensures Quantize(vs[k], Pow2(q) as real) == ins[k] as int
    {
      QuantizeUndoesDequantize(ins[k] as int, q);
    }
  }

  /** Values in [-1, 1] at scale 32767 (sensor.c's 16-bit input) always fit int16_t. */
  lemma UnitRangeFitsInt16(ins: seq<real>)
    requires forall k :: 0 <= k < |ins| ==> -1.0 <= ins[k] <= 1.0
    ensures QuantizesWithin(ins, 32767.0, -32767, 32767)
  {
    forall k | 0 <= k < |ins|
      ensures -32767 <= Quantize(ins[k], 32767.0) <= 32767
    {
      QuantizeInRange(ins[k], 32767);
    }
  }

  /** Values in [-1, 1] at scale 127 (sensor.c's 8-bit input) always fit int8_t. */
  lemma UnitRangeFitsInt8(ins: seq<real>)
    requires forall k :: 0 <= k < |ins| ==> -1.0 <= ins[k] <= 1.0
    ensures QuantizesWithin(ins, 127.0, -127, 127)
  {
    forall k | 0 <= k < |ins|
      ensures -127 <= Quantize(ins[k], 127.0) <= 127
    {
      QuantizeInRange(ins[k], 127);
    }
  }

  /** One value rounded with the sign test applied to `signSource` instead of the value itself. */
  function QuantizeWithSignOf(v: real, signSource: real, scale: real): (r: int)
    ensures (0.0 <= signSource <==> 0.0 <= v) ==> r == Quantize(v, scale)
  {
    var x := v * scale;
    if 0.0 <= signSource then Trunc(x + 0.5) else Trunc(x - 0.5)
  }

  /**
   * The float to fixed-point loops as written: the pointer `in` has already
   * moved `blk_cnt` places when the sign test reads `in[blk_cnt]`, so the
   * sign of element k is taken from element 2k of the memory that starts at
   * the buffer (`ins` followed by whatever lies beyond it). The values are
   * those before the narrowing cast.
   */
  function ConvertAsWritten(ins: seq<real>, beyond: seq<real>, scale: real): (r: seq<int>)
    requires |ins| == 0 || 2 * (|ins| - 1) < |ins| + |beyond|
    ensures |r| == |ins|
    ensures forall k :: 0 <= k < |ins| ==> r[k] == QuantizeWithSignOf(ins[k], (ins + beyond)[2 * k], scale)
  {
    var mem := ins + beyond;
    seq(|ins|, k requires 0 <= k < |ins| => QuantizeWithSignOf(ins[k], mem[2 * k], scale))
  }

  /** When every value the loop reads has the same sign, the misplaced test is harmless. */
  lemma AsWrittenAgreesOnOneSign(ins: seq<real>, beyond: seq<real>, scale: real)
    requires |ins| == 0 || 2 * (|ins| - 1) < |ins| + |beyond|
    requires (forall k :: 0 <= k < |ins| + |beyond| ==> 0.0 <= (ins + beyond)[k])
          || (forall k :: 0 <= k < |ins| + |beyond| ==> (ins + beyond)[k] < 0.0)
    ensures forall k :: 0 <= k < |ins| ==> ConvertAsWritten(ins, beyond, scale)[k] == Quantize(ins[k], scale)
  {
    var mem := ins + beyond;
    forall k | 0 <= k < |ins|
      ensures 0.0 <= mem[2 * k] <==> 0.0 <= ins[k]
    {
      assert mem[k] == ins[k];
    }
  }

  /**
   * On values in [-1, 1] scaled by a whole number `n`, the misplaced sign
   * test moves a result by at most one step: it stays in [-n, n] and within
   * 1.5 of the exact product, so the narrowing cast in the firmware's
   * builds (n = 32767 or 127) never overflows.
   */
  lemma AsWrittenInRange(ins: seq<real>, beyond: seq<real>, n: nat)
    requires |ins| == 0 || 2 * (|ins| - 1) < |ins| + |beyond|
    requires forall k :: 0 <= k < |ins| ==> -1.0 <= ins[k] <= 1.0
    ensures forall k :: 0 <= k < |ins| ==>
      && -(n as int) <= ConvertAsWritten(ins, beyond, n as real)[k] <= n
      && -1.5 < ConvertAsWritten(ins, beyond, n as real)[k] as real - ins[k] * (n as real) < 1.5
  {
    var r := ConvertAsWritten(ins, beyond, n as real);
    forall k | 0 <= k < |ins|
      ensures -(n as int) <= r[k] <= n && -1.5 < r[k] as real - ins[k] * (n as real) < 1.5
    {
      AsWrittenEntryInRange(ins, beyond, n, k);
    }
  }

  /** AsWrittenInRange at one position. */
  lemma AsWrittenEntryInRange(ins: seq<real>, beyond: seq<real>, n: nat, k: nat)
    requires 2 * (|ins| - 1) < |ins| + |beyond| && k < |ins|
    requires -1.0 <= ins[k] <= 1.0
    ensures -(n as int) <= ConvertAsWritten(ins, beyond, n as real)[k] <= n
    ensures -1.5 < ConvertAsWritten(ins, beyond, n as real)[k] as real - ins[k] * (n as real) < 1.5
  {
    var mem := ins + beyond;
    var x := ins[k] * (n as real);
    var q := QuantizeWithSignOf(ins[k], mem[2 * k], n as real);
    SignOfNear(ins[k], mem[2 * k], n);
    assert -(n as int) <= q <= n && -1.5 < q as real - x < 1.5;
    assert ConvertAsWritten(ins, beyond, n as real)[k] == q;
  }

  /** One value of [-1, 1] rounded with any sign test: within one step of v*n, inside [-n, n]. */
  lemma SignOfNear(v: real, s: real, n: nat)
    requires -1.0 <= v <= 1.0
    ensures -(n as int) <= QuantizeWithSignOf(v, s, n as real) <= n
    ensures -1.5 < QuantizeWithSignOf(v, s, n as real) as real - v * (n as real) < 1.5
  {
    UnitTimesScale(v, n as real);
    SignOfNearAt(v, s, n, v * (n as real));
  }

  /** SignOfNear with the product named. */
  lemma SignOfNearAt(v: real, s: real, n: nat, x: real)
    requires x == v * (n as real) && -(n as real) <= x <= n as real
    ensures -(n as int) <= QuantizeWithSignOf(v, s, n as real) <= n
    ensures -1.5 < QuantizeWithSignOf(v, s, n as real) as real - x < 1.5
  {
    var r := if 0.0 <= s then Trunc(x + 0.5) else Trunc(x - 0.5);
    assert QuantizeWithSignOf(v, s, n as real) == r;
    ShiftedTruncNear(x, 0.0 <= s, n, r);
  }

  /**
   * A window that shows the misplaced sign test: at scale 127 the value
   * -0.4 is rounded with the sign of 0.2, two places on, giving -50 where
   * rounding half away from zero gives -51.
   */
  lemma AsWrittenMisroundsMixedSigns()
    ensures ConvertAsWritten([0.3, -0.4, 0.2], [0.0, 0.0], 127.0)[1] == -50
    ensures Quantize(-0.4, 127.0) == -51
  {
    assert ([0.3, -0.4, 0.2] + [0.0, 0.0])[2] == 0.2;
    assert QuantizeWithSignOf(-0.4, 0.2, 127.0) == Trunc(-50.3);
    assert Quantize(-0.4, 127.0) == Trunc(-51.3);
  }
}
