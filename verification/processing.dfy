/**
 * The buffer routines of source/processing.c other than the filter:
 * min-max normalisation, int16 to float widening, and the column swap and
 * column negation used to re-orient the axes. Buffers are flat and
 * row-major (module Layout); sample values are reals.
 */
module Processing {
  import opened Results
  import opened Numeric
  import opened Layout

  /** Upper end of the normalised range. */
  const MaxNormalization: real := 1.0

  /** Lower end of the normalised range. */
  const MinNormalization: real := -1.0

  /**
   * One value of normalization_min_max: above `max` it becomes 1, below
   * `min` it becomes -1, and otherwise it is placed linearly so that `max`
   * goes to 1 and each unit below it moves 2/(max - min) down.
   */
  function Normalize(v: real, min: real, max: real): (r: real)
    requires min != max
    ensures v > max ==> r == MaxNormalization
    ensures v <= max && v < min ==> r == MinNormalization
  {
    var scaler := (MaxNormalization - MinNormalization) / (max - min);
    if v > max then MaxNormalization
    else if v < min then MinNormalization
    else MaxNormalization - (max - v) * scaler
  }

  lemma ProductNonNegative(a: real, b: real)
    requires 0.0 <= a && 0.0 <= b
    ensures 0.0 <= a * b
  {
  }

  lemma ProductNonNegativeWhen(c: bool, a: real, b: real)
    ensures c && 0.0 <= a && 0.0 <= b ==> 0.0 <= a * b
  {
  }

  /** For `min < max` every result lies in [-1, 1]. */
  lemma NormalizeInRange(v: real, min: real, max: real)
    requires min < max
    ensures -1.0 <= Normalize(v, min, max) <= 1.0
  {
    if min <= v <= max {
      var s := (MaxNormalization - MinNormalization) / (max - min);
      assert s > 0.0;
      assert (max - min) * s == 2.0;
      assert (max - min) * s - (max - v) * s == (v - min) * s;
      ProductNonNegative(v - min, s);
      ProductNonNegative(max - v, s);
      assert Normalize(v, min, max) == 1.0 - (max - v) * s;
    }
  }

  /** The range ends and its midpoint go to 1, -1 and 0. */
  lemma NormalizeLandmarks(min: real, max: real)
    requires min < max
    ensures Normalize(max, min, max) == 1.0
    ensures Normalize(min, min, max) == -1.0
    ensures Normalize((min + max) / 2.0, min, max) == 0.0
  {
    var s := 2.0 / (max - min);
    assert (max - min) * s == 2.0;
    assert (max - (min + max) / 2.0) * s == (max - min) / 2.0 * s;
  }

  /** Larger inputs never give smaller outputs. */
  lemma NormalizeMonotone(v: real, w: real, min: real, max: real)
    requires min < max && v <= w
    ensures Normalize(v, min, max) <= Normalize(w, min, max)
  {
    NormalizeInRange(v, min, max);
    NormalizeInRange(w, min, max);
    var s := 2.0 / (max - min);
    if min <= v && w <= max {
      assert (max - w) * s <= (max - v) * s;
    }
  }

  /** The linear placement undone: a position in [-1, 1] mapped back into [min, max]. */
  function Denormalize(r: real, min: real, max: real): (v: real)
    ensures min < max && -1.0 <= r <= 1.0 ==> min <= v <= max
  {
    var v := min + (r + 1.0) * (max - min) / 2.0;
    assert 2.0 * (max - min) - (r + 1.0) * (max - min) == (1.0 - r) * (max - min);
    ProductNonNegativeWhen(min < max && -1.0 <= r <= 1.0, 1.0 - r, max - min);
    ProductNonNegativeWhen(min < max && -1.0 <= r <= 1.0, r + 1.0, max - min);
    v
  }

  /** Inside [min, max] normalisation loses nothing: Denormalize recovers the value. */
  lemma NormalizeRoundTrip(v: real, min: real, max: real)
    requires min < max && min <= v <= max
    ensures Denormalize(Normalize(v, min, max), min, max) == v
  {
    var s := 2.0 / (max - min);
    assert (max - min) * s == 2.0;
    var r := 1.0 - (max - v) * s;
    assert (r + 1.0) * (max - min) == 2.0 * (max - min) - (max - v) * 2.0;
  }

  /** Over the sensor range [-32768, 32768] normalisation is division by 32768. */
  lemma SensorRangeIsDivision(v: real)
    requires -32768.0 <= v <= 32768.0
    ensures Normalize(v, -32768.0, 32768.0) == v / 32768.0
  {
  }

  /** `buf` with its first `n` entries normalised. */
  function NormalizedBelow(buf: seq<real>, n: nat, min: real, max: real): (r: seq<real>)
    requires min != max
    ensures |r| == |buf|
  {
    seq(|buf|, k requires 0 <= k < |buf| => if k < n then Normalize(buf[k], min, max) else buf[k])
  }

  /**
   * normalization_min_max over the first `length` rows of `dimension`
   * entries: each of those entries normalised, everything after them kept.
   */
  function NormalizeBuffer(buf: seq<real>, length: nat, dimension: nat, min: real, max: real): (r: seq<real>)
    requires length * dimension <= |buf| && min != max
    ensures |r| == |buf|
    ensures forall row, col :: 0 <= row < length && 0 <= col < dimension ==>
      Index(row, col, dimension) < |buf| && r[Index(row, col, dimension)] == Normalize(buf[Index(row, col, dimension)], min, max)
    ensures forall k :: length * dimension <= k < |buf| ==> r[k] == buf[k]
  {
    forall row, col | 0 <= row < length && 0 <= col < dimension
      ensures Index(row, col, dimension) < length * dimension
    {
      IndexInRows(row, col, length, dimension);
    }
    NormalizedBelow(buf, length * dimension, min, max)
  }

  /** When the rows fill the buffer and `min < max`, every normalised entry lies in [-1, 1]. */
  lemma NormalizeBufferInRange(buf: seq<real>, length: nat, dimension: nat, min: real, max: real)
    requires length * dimension == |buf| && min < max
    ensures forall k :: 0 <= k < |buf| ==> -1.0 <= NormalizeBuffer(buf, length, dimension, min, max)[k] <= 1.0
  {
    var r := NormalizeBuffer(buf, length, dimension, min, max);
    forall k | 0 <= k < |buf|
      ensures -1.0 <= r[k] <= 1.0
    {
      NormalizeInRange(buf[k], min, max);
      assert r[k] == Normalize(buf[k], min, max);
    }
  }

  /**
   * normalization_min_max written as its two nested loops, with counters
   * wide enough for any dimension: row by row, column by column.
   */
  method NormalizeLoop(buf: seq<real>, length: nat, dimension: nat, min: real, max: real) returns (r: seq<real>)
    requires length * dimension <= |buf| && min != max
    ensures r == NormalizeBuffer(buf, length, dimension, min, max)
  {
    r := buf;
    var curRow: nat := 0;
    while length > curRow
      invariant curRow <= length
      invariant r == NormalizedBelow(buf, Index(curRow, 0, dimension), min, max)
    {
      IndexMonotone(curRow + 1, length, 0, dimension);
      var curCol: nat := 0;
      while dimension > curCol
        invariant curCol <= dimension
        invariant r == NormalizedBelow(buf, Index(curRow, curCol, dimension), min, max)
      {
        var at := Index(curRow, curCol, dimension);
        r := r[at := Normalize(r[at], min, max)];
        assert r == NormalizedBelow(buf, at + 1, min, max);
        curCol := curCol + 1;
      }
      assert Index(curRow, dimension, dimension) == Index(curRow + 1, 0, dimension);
      curRow := curRow + 1;
    }
  }

  /**
   * The inner loop of normalization_min_max as written, with its 8-bit
   * column counter: the columns it visits, starting from `col`, or None if
   * it has not left the loop within `fuel` iterations. Incrementing the
   * counter past 255 wraps it to 0.
   */
  function ColumnWalk8(dimension: nat, col: nat, fuel: nat): (r: Option<seq<nat>>)
    requires col < 256
    decreases fuel
  {
    if fuel == 0 then None
    else if !(dimension > col) then Some([])
    else
      match ColumnWalk8(dimension, (col + 1) % 256, fuel - 1)
      case None => None
      case Some(rest) => Some([col] + rest)
  }

  /** With 256 or more columns the 8-bit counter never reaches the dimension: the loop never exits. */
  lemma {:induction false} ColumnWalk8NeverExits(dimension: nat, col: nat, fuel: nat)
    requires col < 256 && dimension >= 256
    ensures ColumnWalk8(dimension, col, fuel) == None
    decreases fuel
  {
    if fuel > 0 {
      ColumnWalk8NeverExits(dimension, (col + 1) % 256, fuel - 1);
    }
  }

  /** Below 256 columns the 8-bit counter visits every remaining column once, in order. */
  lemma {:induction false} ColumnWalk8VisitsAll(dimension: nat, col: nat, fuel: nat)
    requires col <= dimension < 256 && fuel > dimension - col
    ensures ColumnWalk8(dimension, col, fuel) == Some(seq(dimension - col, i => col + i))
    decreases dimension - col
  {
    if col < dimension {
      ColumnWalk8VisitsAll(dimension, col + 1, fuel - 1);
      assert (col + 1) % 256 == col + 1;
      var rest := seq(dimension - (col + 1), i => col + 1 + i);
      assert ColumnWalk8(dimension, col, fuel) == Some([col] + rest);
      assert [col] + rest == seq(dimension - col, i => col + i);
    } else {
      assert seq(dimension - col, i => col + i) == [];
    }
  }

  /**
   * cast_int16_to_float: the first `length` entries widened to floats in
   * place order; entries of the float buffer after them are left alone.
   */
  function CastInt16ToFloat(ints: seq<Int16>, floats: seq<real>, length: nat): (r: seq<real>)
    requires length <= |ints| && length <= |floats|
    ensures |r| == |floats|
    ensures forall k :: 0 <= k < length ==> r[k] == ints[k] as real && r[k].Floor == ints[k] as int
    ensures r[length..] == floats[length..]
  {
    seq(|floats|, k requires 0 <= k < |floats| => if k < length then ints[k] as real else floats[k])
  }

  /** `col` after exchanging columns `one` and `two`. */
  function Swapped(col: nat, one: nat, two: nat): (c: nat)
    ensures c == one || c == two || c == col
    ensures (c == col) <==> (col != one && col != two) || one == two
  {
    if col == one then two else if col == two then one else col
  }

  /**
   * column_swap: in rows 0..length-1, in order, the entries of columns
   * `one` and `two` are exchanged through a temporary.
   */
  function ColumnSwap(buf: seq<real>, length: nat, dimension: nat, one: nat, two: nat): (r: seq<real>)
    requires ColumnFits(|buf|, length, one, dimension) && ColumnFits(|buf|, length, two, dimension)
    ensures |r| == |buf|
    decreases length
  {
    if length == 0 then buf
    else
      ColumnFitsShorter(|buf|, length, one, dimension);
      ColumnFitsShorter(|buf|, length, two, dimension);
      var partial := ColumnSwap(buf, length - 1, dimension, one, two);
      var i1, i2 := Index(length - 1, one, dimension), Index(length - 1, two, dimension);
      var temp := partial[i1];
      partial[i1 := partial[i2]][i2 := temp]
  }

  /**
   * For columns inside the row width, column_swap reads every entry of the
   * first `length` rows from the swapped column of the same row and leaves
   * the rest of the buffer alone.
   */
  lemma {:induction false} ColumnSwapMoves(buf: seq<real>, length: nat, dimension: nat, one: nat, two: nat)
    requires one < dimension && two < dimension && Index(length, 0, dimension) <= |buf|
    requires ColumnFits(|buf|, length, one, dimension) && ColumnFits(|buf|, length, two, dimension)
    ensures forall row, col :: 0 <= row < length && 0 <= col < dimension ==>
      Index(row, col, dimension) < |buf| && Index(row, Swapped(col, one, two), dimension) < |buf| &&
      ColumnSwap(buf, length, dimension, one, two)[Index(row, col, dimension)] == buf[Index(row, Swapped(col, one, two), dimension)]
    ensures forall k :: Index(length, 0, dimension) <= k < |buf| ==> ColumnSwap(buf, length, dimension, one, two)[k] == buf[k]
    decreases length
  {
    if length > 0 {
      var n := length - 1;
      ColumnFitsShorter(|buf|, length, one, dimension);
      ColumnFitsShorter(|buf|, length, two, dimension);
      ColumnSwapMoves(buf, n, dimension, one, two);
      var partial := ColumnSwap(buf, n, dimension, one, two);
      var i1, i2 := Index(n, one, dimension), Index(n, two, dimension);
      var r := ColumnSwap(buf, length, dimension, one, two);
      assert r == partial[i1 := partial[i2]][i2 := partial[i1]];
      RowNext(n, dimension);
      IndexInRows(n, one, length, dimension);
      IndexInRows(n, two, length, dimension);
      forall row, col | 0 <= row < length && 0 <= col < dimension
        ensures Index(row, col, dimension) < |buf| && Index(row, Swapped(col, one, two), dimension) < |buf|
        ensures r[Index(row, col, dimension)] == buf[Index(row, Swapped(col, one, two), dimension)]
      {
        var other := Swapped(col, one, two);
        IndexInRows(row, col, length, dimension);
        IndexInRows(row, other, length, dimension);
        var at := Index(row, col, dimension);
        if row < n {
          RowsDisjoint(row, col, n, one, dimension);
          RowsDisjoint(row, col, n, two, dimension);
          assert r[at] == partial[at];
        } else if col == two {
          assert r[at] == partial[i1];
          assert partial[i1] == buf[i1];
        } else if col == one {
          assert r[at] == partial[i2];
          assert partial[i2] == buf[i2];
        } else {
          IndexInjective(n, col, n, one, dimension);
          IndexInjective(n, col, n, two, dimension);
          assert r[at] == partial[at];
        }
      }
      forall k | Index(length, 0, dimension) <= k < |buf|
        ensures r[k] == buf[k]
      {
      }
    }
  }

  /**
   * column_inverse: in rows 0..length-1 the entry of column `col` is
   * multiplied by -1.
   */
  function ColumnInverse(buf: seq<real>, length: nat, dimension: nat, col: nat): (r: seq<real>)
    requires ColumnFits(|buf|, length, col, dimension)
    ensures |r| == |buf|
    decreases length
  {
    if length == 0 then buf
    else
      ColumnFitsShorter(|buf|, length, col, dimension);
      var partial := ColumnInverse(buf, length - 1, dimension, col);
      var at := Index(length - 1, col, dimension);
      partial[at := partial[at] * -1.0]
  }

  /**
   * For a column inside the row width, column_inverse negates that column
   * in the first `length` rows and leaves every other entry alone.
   */
  lemma {:induction false} ColumnInverseNegates(buf: seq<real>, length: nat, dimension: nat, col: nat)
    requires col < dimension && Index(length, 0, dimension) <= |buf| && ColumnFits(|buf|, length, col, dimension)
    ensures forall row, c :: 0 <= row < length && 0 <= c < dimension ==>
      Index(row, c, dimension) < |buf| &&
      ColumnInverse(buf, length, dimension, col)[Index(row, c, dimension)]
        == (if c == col then -buf[Index(row, c, dimension)] else buf[Index(row, c, dimension)])
    ensures forall k :: Index(length, 0, dimension) <= k < |buf| ==> ColumnInverse(buf, length, dimension, col)[k] == buf[k]
    decreases length
  {
    if length > 0 {
      ColumnFitsShorter(|buf|, length, col, dimension);
      ColumnInverseNegates(buf, length - 1, dimension, col);
      forall row, c | 0 <= row < length - 1 && 0 <= c < dimension
        ensures Index(row, c, dimension) != Index(length - 1, col, dimension)
      {
        RowsDisjoint(row, c, length - 1, col, dimension);
      }
      IndexMonotone(length - 1, length, 0, dimension);
      forall row, c | 0 <= row < length && 0 <= c < dimension
        ensures Index(row, c, dimension) < Index(length, 0, dimension)
      {
        IndexInRows(row, c, length, dimension);
      }
      assert Index(length - 1, 0, dimension) + dimension == Index(length, 0, dimension);
    }
  }

  /** Every position below `length * dimension` is some row and column of the buffer. */
  lemma Decompose(k: nat, length: nat, dimension: nat)
    requires dimension > 0 && k < Index(length, 0, dimension)
    ensures k / dimension < length && k % dimension < dimension
    ensures k == Index(k / dimension, k % dimension, dimension)
  {
    var row, col := k / dimension, k % dimension;
    assert k == RowStart(row, dimension) + col;
    RowStartMonotone(length, row, dimension);
  }

  /**
   * Two buffers of one size that agree on every entry of the first
   * `length` rows and on everything after them are equal.
   */
  lemma EqualByRows(a: seq<real>, b: seq<real>, length: nat, dimension: nat)
    requires |a| == |b| && dimension > 0
    requires forall row, col :: 0 <= row < length && 0 <= col < dimension && Index(row, col, dimension) < |a| ==>
      a[Index(row, col, dimension)] == b[Index(row, col, dimension)]
    requires forall k :: Index(length, 0, dimension) <= k < |a| ==> a[k] == b[k]
    ensures a == b
  {
    forall k | 0 <= k < |a|
      ensures a[k] == b[k]
    {
      if k < Index(length, 0, dimension) {
        Decompose(k, length, dimension);
      }
    }
  }

  /** Swapping the same two columns twice restores the buffer. */
  lemma ColumnSwapInvolution(buf: seq<real>, length: nat, dimension: nat, one: nat, two: nat)
    requires one < dimension && two < dimension && Index(length, 0, dimension) <= |buf|
    requires ColumnFits(|buf|, length, one, dimension) && ColumnFits(|buf|, length, two, dimension)
    ensures ColumnSwap(ColumnSwap(buf, length, dimension, one, two), length, dimension, one, two) == buf
  {
    var once := ColumnSwap(buf, length, dimension, one, two);
    ColumnSwapMoves(buf, length, dimension, one, two);
    ColumnSwapMoves(once, length, dimension, one, two);
    EqualByRows(ColumnSwap(once, length, dimension, one, two), buf, length, dimension);
  }

  /** Negating the same column twice restores the buffer. */
  lemma ColumnInverseInvolution(buf: seq<real>, length: nat, dimension: nat, col: nat)
    requires col < dimension && Index(length, 0, dimension) <= |buf| && ColumnFits(|buf|, length, col, dimension)
    ensures ColumnInverse(ColumnInverse(buf, length, dimension, col), length, dimension, col) == buf
  {
    var once := ColumnInverse(buf, length, dimension, col);
    ColumnInverseNegates(buf, length, dimension, col);
    ColumnInverseNegates(once, length, dimension, col);
    EqualByRows(ColumnInverse(once, length, dimension, col), buf, length, dimension);
  }
}
