/**
 * The row-major layout shared by the buffer routines of
 * source/processing.c: a flat buffer holding `length` rows of `width`
 * entries, sample `i` of column `c` stored at `width * i + c`.
 */
module Layout {

  /** Position of sample `i` of column `column` in a row-major buffer of rows `width` wide. */
  function Index(i: nat, column: nat, width: nat): nat {
    RowStart(i, width) + column
  }

  /** Position of the first entry of row `i`. */
  function RowStart(i: nat, width: nat): nat {
    width * i
  }

  /** Sample `length - 1`, and so every earlier one, lies inside a buffer of `size` entries. */
  predicate ColumnFits(size: nat, length: nat, column: nat, width: nat) {
    length == 0 || Index(length - 1, column, width) < size
  }

  lemma ColumnFitsShorter(size: nat, length: nat, column: nat, width: nat)
    requires length > 0 && ColumnFits(size, length, column, width)
    ensures ColumnFits(size, length - 1, column, width)
  {
    if length > 1 {
      assert width * (length - 1) == width * (length - 2) + width;
    }
  }

  lemma ColumnFitsPrefix(size: nat, shorter: nat, length: nat, column: nat, width: nat)
    requires shorter <= length && ColumnFits(size, length, column, width)
    ensures ColumnFits(size, shorter, column, width)
  {
    if shorter > 0 {
      assert width * (length - 1) == width * (shorter - 1) + width * (length - shorter);
    }
  }

  /** The buffer positions of the first `length` samples of the column. */
  function Touched(length: nat, column: nat, width: nat): (t: set<nat>)
    ensures forall i :: 0 <= i < length ==> Index(i, column, width) in t
    ensures forall k :: k in t ==> exists i :: 0 <= i < length && k == Index(i, column, width)
  {
    if length == 0 then {} else Touched(length - 1, column, width) + {Index(length - 1, column, width)}
  }

  /** The first `length` samples of the column, in row order. */
  function Column(buf: seq<real>, length: nat, column: nat, width: nat): (c: seq<real>)
    requires ColumnFits(|buf|, length, column, width)
    ensures |c| == length
    ensures forall i :: 0 <= i < length ==> Index(i, column, width) < |buf| && c[i] == buf[Index(i, column, width)]
    decreases length
  {
    if length == 0 then []
    else
      ColumnFitsShorter(|buf|, length, column, width);
      Column(buf, length - 1, column, width) + [buf[Index(length - 1, column, width)]]
  }

  lemma IndexIncreasing(i: nat, j: nat, column: nat, width: nat)
    requires i < j && width > 0
    ensures Index(i, column, width) < Index(j, column, width)
  {
    assert width * j == width * i + width * (j - i);
  }

  /** Entries of different rows never share a position when every column index is below the width. */
  lemma RowsDisjoint(r1: nat, c1: nat, r2: nat, c2: nat, width: nat)
    requires r1 < r2 && c1 < width && c2 < width
    ensures Index(r1, c1, width) < Index(r2, c2, width)
  {
    Distribute(width, r1, r2 - r1);
    MulAtLeast(width, r2 - r1);
  }

  /** A position inside the first `length` rows lies below `length * width`. */
  lemma IndexInRows(r: nat, c: nat, length: nat, width: nat)
    requires r < length && c < width
    ensures Index(r, c, width) < length * width
  {
    Distribute(width, r, length - r);
    MulAtLeast(width, length - r);
    assert length * width == width * length;
  }

  /** A buffer of `length` whole rows ends where row `length` would start. */
  lemma WholeRowsEnd(length: nat, width: nat)
    ensures Index(length, 0, width) == length * width
  {
  }

  /** Row `i + 1` starts one full row after row `i`. */
  lemma RowNext(i: nat, width: nat)
    ensures RowStart(i + 1, width) == RowStart(i, width) + width
  {
    Distribute(width, i, 1);
  }

  /** Later rows start further into the buffer. */
  lemma RowStartMonotone(i: nat, j: nat, width: nat)
    ensures i <= j ==> RowStart(i, width) <= RowStart(j, width)
  {
    if i <= j {
      Distribute(width, i, j - i);
    }
  }

  lemma Distribute(w: nat, a: nat, b: nat)
    ensures w * (a + b) == w * a + w * b
  {
  }

  lemma MulAtLeast(w: nat, k: nat)
    requires k >= 1
    ensures w * k >= w
  {
  }

  /** Later rows sit further into the buffer. */
  lemma IndexMonotone(i: nat, j: nat, column: nat, width: nat)
    requires i <= j
    ensures Index(i, column, width) <= Index(j, column, width)
  {
    assert width * j == width * i + width * (j - i);
  }

  /** Distinct (row, column) pairs inside the row width are distinct positions. */
  lemma IndexInjective(i: nat, c: nat, j: nat, d: nat, width: nat)
    requires c < width && d < width && (i != j || c != d)
    ensures Index(i, c, width) != Index(j, d, width)
  {
    if i < j {
      RowsDisjoint(i, c, j, d, width);
    } else if j < i {
      RowsDisjoint(j, d, i, c, width);
    }
  }

  /** Buffers that agree on the first `length` samples of a column have the same column. */
  lemma ColumnsAgree(a: seq<real>, b: seq<real>, length: nat, column: nat, width: nat)
    requires ColumnFits(|a|, length, column, width) && ColumnFits(|b|, length, column, width)
    requires forall i :: 0 <= i < length ==>
      Index(i, column, width) < |a| && Index(i, column, width) < |b| && a[Index(i, column, width)] == b[Index(i, column, width)]
    ensures Column(a, length, column, width) == Column(b, length, column, width)
  {
  }

  /** A column inside the row width fits whenever the whole rows do. */
  lemma ColumnFitsInRows(size: nat, length: nat, column: nat, width: nat)
    requires column < width && Index(length, 0, width) <= size
    ensures ColumnFits(size, length, column, width)
  {
    if length > 0 {
      IndexInRows(length - 1, column, length, width);
    }
  }

  /** A column read off position by position is the column. */
  lemma ColumnOf(buf: seq<real>, s: seq<real>, length: nat, column: nat, width: nat)
    requires ColumnFits(|buf|, length, column, width) && |s| == length
    requires forall i :: 0 <= i < length ==> Index(i, column, width) < |buf| && buf[Index(i, column, width)] == s[i]
    ensures Column(buf, length, column, width) == s
  {
  }
}
