/**
 * train/data_load.py: DataLoader.format_support_func and its _vis variant.
 * The class directories are listed, "negative" is moved to the end of the
 * list, the first four names get the ids 0..3, and every record of six-wide
 * rows is cut into all windows of seq_length consecutive rows, each
 * labelled with its record's class id. JSON reading, the directory listing
 * itself and the TensorFlow dataset are outside the model: the records and
 * the listing are inputs and the labelled windows are the result.
 */
module DataLoad {
  import opened Results
  import opened Seqs
  import DataPrepare

  type Row = seq<real>

  /** One JSON line of a split file: the rows of a window and its class name. */
  datatype Record = Record(rows: seq<Row>, gesture: string)

  /** One training example: a window of rows and its class id. */
  datatype Example = Example(window: seq<Row>, id: int)

  /** The exceptions the loader can raise. */
  datatype LoadError =
    | IndexError      // a position past the end of the directory list or of the array shape
    | Ragged          // rows of different widths do not form a two-dimensional array
    | FeatureMismatch // "Number of features do not match"
    | KeyError        // a class name without an id

  /** Values per row the loader expects (self.dim). */
  const Dim: nat := 6

  /** The number of classes the ids cover (self.classes). */
  const Classes: nat := 4

  /** The class the loader moves to the end of the list. */
  const Negative: string := "negative"

  /**
   * The position of the first "negative" among the entries the reordering
   * loop inspects before it stops: the first four, or fewer when the list
   * is shorter.
   */
  function FirstNegative(classes: seq<string>, x: nat): (r: Option<nat>)
    ensures r.Some? ==> x <= r.value < Classes && r.value < |classes| && classes[r.value] == Negative
    ensures r.Some? ==> forall k :: x <= k < r.value ==> classes[k] != Negative
    ensures r.None? ==> forall k :: x <= k < Classes && k < |classes| ==> classes[k] != Negative
    decreases Classes - x
  {
    if x >= Classes || x >= |classes| then None
    else if classes[x] == Negative then Some(x)
    else FirstNegative(classes, x + 1)
  }

  /**
   * The reordering loop of format_support_func from position `x` on: the
   * first "negative" met is deleted and appended; a list that runs out
   * before position four without one raises IndexError.
   */
  function ReorderFrom(classes: seq<string>, x: nat): (r: Result<seq<string>, LoadError>)
    decreases Classes - x
  {
    if x >= Classes then Success(classes)
    else if x >= |classes| then Failure(IndexError)
    else if classes[x] == Negative then Success(classes[..x] + classes[x + 1..] + [Negative])
    else ReorderFrom(classes, x + 1)
  }

  /** The class list of format_support_func after moving "negative" to the end. */
  function Reorder(classes: seq<string>): (r: Result<seq<string>, LoadError>)
  {
    ReorderFrom(classes, 0)
  }

  /**
   * The reordering succeeds exactly when it meets a "negative" or the list
   * has four entries; it moves the first "negative" among the first four to
   * the end, keeping the others in order, and otherwise changes nothing.
   */
  lemma {:induction false} ReorderFromShape(classes: seq<string>, x: nat)
    requires x <= Classes && x <= |classes|
    ensures ReorderFrom(classes, x).Success? <==> FirstNegative(classes, x).Some? || |classes| >= Classes
    ensures ReorderFrom(classes, x).Failure? ==> ReorderFrom(classes, x).error == IndexError
    ensures FirstNegative(classes, x).Some? ==> var n := FirstNegative(classes, x).value;
      ReorderFrom(classes, x) == Success(classes[..n] + classes[n + 1..] + [Negative])
    ensures FirstNegative(classes, x).None? && |classes| >= Classes ==> ReorderFrom(classes, x) == Success(classes)
    decreases Classes - x
  {
    if x < Classes && x < |classes| && classes[x] != Negative {
      ReorderFromShape(classes, x + 1);
    }
  }

  /** Reorder as a whole: see ReorderFromShape; the result is a permutation of the list. */
  lemma ReorderShape(classes: seq<string>)
    ensures Reorder(classes).Success? <==> FirstNegative(classes, 0).Some? || |classes| >= Classes
    ensures Reorder(classes).Failure? ==> Reorder(classes).error == IndexError
    ensures FirstNegative(classes, 0).Some? ==> var n := FirstNegative(classes, 0).value;
      Reorder(classes) == Success(classes[..n] + classes[n + 1..] + [Negative])
    ensures FirstNegative(classes, 0).None? && |classes| >= Classes ==> Reorder(classes) == Success(classes)
    ensures Reorder(classes).Success? ==> multiset(Reorder(classes).value) == multiset(classes)
  {
    ReorderFromShape(classes, 0);
    assert Reorder(classes) == ReorderFrom(classes, 0);
    if FirstNegative(classes, 0).Some? {
      var n := FirstNegative(classes, 0).value;
      MoveToEndPermutes(classes, n);
    }
  }

  /**
   * label2id_square: the first four names get ids 0..3 by position, a later
   * repeat of a name overriding an earlier one; fewer than four names raise
   * IndexError.
   */
  function LabelIds(classes: seq<string>): (r: Result<map<string, int>, LoadError>)
    ensures r.Success? <==> |classes| >= Classes
    ensures r.Failure? ==> r.error == IndexError
    ensures r.Success? ==> r.value.Keys == set k | 0 <= k < Classes :: classes[k]
    ensures r.Success? ==> forall name :: name in r.value ==> 0 <= r.value[name] < Classes
  {
    if |classes| < Classes then Failure(IndexError)
    else Success(map[classes[0] := 0][classes[1] := 1][classes[2] := 2][classes[3] := 3])
  }

  /** Directory names are distinct. */
  predicate Distinct(names: seq<string>) {
    forall i, j :: 0 <= i < j < |names| ==> names[i] != names[j]
  }

  /** For distinct names, each of the first four gets its position as id. */
  lemma IdsByPosition(classes: seq<string>)
    requires |classes| >= Classes && Distinct(classes)
    ensures forall k :: 0 <= k < Classes ==> LabelIds(classes).value[classes[k]] == k
  {
  }

  /** The ids format_support_func assigns: by position after moving "negative" to the end. */
  function TrainingIds(classes: seq<string>): (r: Result<map<string, int>, LoadError>)
  {
    match Reorder(classes)
    case Failure(e) => Failure(e)
    case Success(ordered) => LabelIds(ordered)
  }

  /** The ids format_support_func_vis assigns: by position in the listing as it is. */
  function VisIds(classes: seq<string>): (r: Result<map<string, int>, LoadError>)
  {
    LabelIds(classes)
  }

  /**
   * With "negative" first met at position n among the first four of a list
   * of distinct names, the names before it keep their ids, the names after
   * it (up to the fifth) move down by one, and "negative" gets id 3 when
   * the list has exactly four names and no id otherwise.
   */
  lemma TrainingIdsMoveNegativeLast(classes: seq<string>)
    requires |classes| >= Classes && Distinct(classes) && FirstNegative(classes, 0).Some?
    ensures var n := FirstNegative(classes, 0).value;
      var ids := TrainingIds(classes).value;
      && (forall k :: 0 <= k < n ==> classes[k] in ids && ids[classes[k]] == k)
      && (forall k :: n < k <= Classes && k < |classes| ==> classes[k] in ids && ids[classes[k]] == k - 1)
      && (|classes| == Classes ==> Negative in ids && ids[Negative] == Classes - 1)
      && (|classes| > Classes ==> Negative !in ids)
  {
    var n := FirstNegative(classes, 0).value;
    var ordered := classes[..n] + classes[n + 1..] + [Negative];
    OrderedIds(classes, n);
    MoveToEnd(classes, n, Negative);
    var ids := LabelIds(ordered).value;
    forall k | 0 <= k < n
      ensures classes[k] in ids && ids[classes[k]] == k
    {
      assert classes[k] == ordered[k];
    }
    forall k | n < k <= Classes && k < |classes|
      ensures classes[k] in ids && ids[classes[k]] == k - 1
    {
      assert classes[k] == ordered[k - 1];
    }
    NegativeId(classes, n);
  }

  /** "negative" gets the last id when the list has exactly four names and no id otherwise. */
  lemma NegativeId(classes: seq<string>, n: nat)
    requires |classes| >= Classes && Distinct(classes) && FirstNegative(classes, 0) == Some(n)
    ensures var ids := TrainingIds(classes).value;
      && (|classes| == Classes ==> Negative in ids && ids[Negative] == Classes - 1)
      && (|classes| > Classes ==> Negative !in ids)
  {
    var ordered := classes[..n] + classes[n + 1..] + [Negative];
    OrderedIds(classes, n);
    MoveToEnd(classes, n, Negative);
    if |classes| == Classes {
      assert ordered[Classes - 1] == Negative;
    } else {
      forall k | 0 <= k < Classes
        ensures ordered[k] != Negative
      {
        var ck := if k < n then k else k + 1;
        assert ordered[k] == classes[ck] && ck != n;
      }
    }
  }

  /** The training ids are the positional ids of the reordered list. */
  lemma OrderedIds(classes: seq<string>, n: nat)
    requires |classes| >= Classes && Distinct(classes) && FirstNegative(classes, 0) == Some(n)
    ensures var ordered := classes[..n] + classes[n + 1..] + [Negative];
      && TrainingIds(classes) == LabelIds(ordered)
      && forall k :: 0 <= k < Classes ==> LabelIds(ordered).value[ordered[k]] == k
  {
    var ordered := classes[..n] + classes[n + 1..] + [Negative];
    ReorderShape(classes);
    MovedStaysDistinct(classes, n);
    IdsByPosition(ordered);
  }

  /** Moving one entry of a list of distinct names to the end keeps the names distinct. */
  lemma MovedStaysDistinct(classes: seq<string>, n: nat)
    requires Distinct(classes) && n < |classes| && classes[n] == Negative
    ensures Distinct(classes[..n] + classes[n + 1..] + [Negative])
  {
    var ordered := classes[..n] + classes[n + 1..] + [Negative];
    MoveToEnd(classes, n, Negative);
    forall i, j | 0 <= i < j < |ordered|
      ensures ordered[i] != ordered[j]
    {
      var ci := if i < n then i else i + 1;
      var cj := if j == |classes| - 1 then n else if j < n then j else j + 1;
      assert ordered[i] == classes[ci] && ordered[j] == classes[cj] && ci != cj;
    }
  }

  /**
   * When the listing already ends with its only "negative" inside the first
   * four, or has none there, both variants give the same ids.
   */
  lemma IdsAgreeWhenReorderIsIdentity(classes: seq<string>)
    requires |classes| >= Classes
    requires FirstNegative(classes, 0).None? || FirstNegative(classes, 0).value == |classes| - 1
    ensures TrainingIds(classes) == VisIds(classes)
  {
    ReorderShape(classes);
    if FirstNegative(classes, 0).Some? {
      MoveToEnd(classes, FirstNegative(classes, 0).value, Negative);
    }
  }

  /**
   * When "negative" sits among the first three, the variants disagree: the
   * name just after it has id n in training but n + 1 in the _vis variant.
   */
  lemma IdsDisagreeWhenNegativeEarly(classes: seq<string>)
    requires |classes| >= Classes && Distinct(classes)
    requires FirstNegative(classes, 0).Some? && FirstNegative(classes, 0).value < Classes - 1
    ensures var n := FirstNegative(classes, 0).value;
      && TrainingIds(classes).value[classes[n + 1]] == n
      && VisIds(classes).value[classes[n + 1]] == n + 1
  {
    TrainingIdsMoveNegativeLast(classes);
    IdsByPosition(classes);
  }

  /**
   * For a listing of distinct names, the two variants give the same ids
   * exactly when the reordering changes nothing: no "negative" among the
   * first four, or one that is already last. A "negative" at position 3
   * with more names after it is dropped from the training ids while the
   * _vis variant gives it id 3.
   */
  lemma IdsAgreeExactlyWhenReorderIsIdentity(classes: seq<string>)
    requires |classes| >= Classes && Distinct(classes)
    ensures TrainingIds(classes) == VisIds(classes)
      <==> FirstNegative(classes, 0).None? || FirstNegative(classes, 0).value == |classes| - 1
  {
    if FirstNegative(classes, 0).None? || FirstNegative(classes, 0).value == |classes| - 1 {
      IdsAgreeWhenReorderIsIdentity(classes);
    } else {
      var n := FirstNegative(classes, 0).value;
      IdsByPosition(classes);
      if n < Classes - 1 {
        IdsDisagreeWhenNegativeEarly(classes);
      } else {
        TrainingIdsMoveNegativeLast(classes);
        assert Negative !in TrainingIds(classes).value;
        assert classes[n] == Negative && VisIds(classes).value[classes[n]] == n;
      }
    }
  }

  /**
   * The shape numpy gives a record: its row count and common width. An
   * empty record has a one-dimensional shape, so reading the width raises
   * IndexError; rows of different widths do not form a two-dimensional
   * array either.
   */
  function Width(rows: seq<Row>): (r: Result<nat, LoadError>)
    ensures r.Success? <==> rows != [] && forall i :: 0 <= i < |rows| ==> |rows[i]| == |rows[0]|
    ensures r.Success? ==> r.value == |rows[0]|
    ensures rows == [] ==> r == Failure(IndexError)
  {
    if rows == [] then Failure(IndexError)
    else if exists i :: 0 <= i < |rows| && |rows[i]| != |rows[0]| then Failure(Ragged)
    else Success(|rows[0]|)
  }

  /**
   * All windows of `length` consecutive rows, one starting at every row
   * from 0 to n - length: range(0, n - length + 1).
   */
  function Windows(rows: seq<Row>, length: nat): (ws: seq<seq<Row>>)
    ensures |ws| == if |rows| >= length then |rows| - length + 1 else 0
    ensures forall i :: 0 <= i < |ws| ==> i + length <= |rows| && ws[i] == rows[i..i + length]
  {
    if |rows| < length then []
    else seq(|rows| - length + 1, i requires 0 <= i < |rows| - length + 1 => rows[i..i + length])
  }

  /**
   * The stride-one windows are the windows segment_signal would cut with a
   * stride of one and its bound made inclusive.
   */
  lemma WindowsAreStrideOneSegments(rows: seq<Row>, length: nat)
    requires length > 0
    ensures DataPrepare.Stride(1.0 / length as real, length) == 1
    ensures DataPrepare.Segments(rows, 1.0 / length as real, length) == Success(Windows(rows, length))
  {
    var overlap := 1.0 / length as real;
    assert length as real * overlap == 1.0;
    DataPrepare.SegmentsShape(rows, overlap, length);
    var segs := DataPrepare.Segments(rows, overlap, length).value;
    var ws := Windows(rows, length);
    assert |segs| == |ws| by {
      var n := |segs|;
      if |rows| >= length {
        assert n - 1 <= |rows| - length < n;
      }
    }
    assert forall k :: 0 <= k < |segs| ==> segs[k] == ws[k];
    EqualPointwise(segs, ws);
  }

  /** How many windows a list of records yields in all. */
  function WindowCount(records: seq<Record>, length: nat): (n: nat)
    ensures records == [] ==> n == 0
    decreases |records|
  {
    if records == [] then 0
    else WindowCount(records[..|records| - 1], length) + |Windows(records[|records| - 1].rows, length)|
  }

  /** The examples of one record: its windows in order, each with the record's id. */
  function Labelled(ws: seq<seq<Row>>, id: int): (ex: seq<Example>)
    ensures |ex| == |ws| && forall k :: 0 <= k < |ws| ==> ex[k].window == ws[k] && ex[k].id == id
  {
    seq(|ws|, k requires 0 <= k < |ws| => Example(ws[k], id))
  }

  /** A record the loader accepts: rows of one width, and that width six. */
  predicate WellShaped(rows: seq<Row>) {
    Width(rows) == Success(Dim)
  }

  /**
   * The record loop of format_support_func and format_support_func_vis:
   * records in order, each checked for width, then cut into windows, each
   * window labelled by the id of its record's class. The first exception
   * stops the loop; a record too short for any window never looks its
   * class up.
   */
  function Slice(records: seq<Record>, ids: map<string, int>, length: nat): (r: Result<seq<Example>, LoadError>)
    ensures r.Success? ==> |r.value| == WindowCount(records, length)
    ensures r.Success? ==> forall k :: 0 <= k < |r.value| ==> |r.value[k].window| == length && r.value[k].id in ids.Values
    decreases |records|
  {
    if records == [] then Success([])
    else SliceStep(Slice(records[..|records| - 1], ids, length), records[|records| - 1], ids, length)
  }

  /** One pass of the record loop after the earlier records gave `sofar`. */
  function SliceStep(sofar: Result<seq<Example>, LoadError>, rec: Record, ids: map<string, int>, length: nat)
    : (r: Result<seq<Example>, LoadError>)
    ensures sofar.Failure? ==> r == sofar
  {
    match sofar
    case Failure(e) => Failure(e)
    case Success(front) =>
      match Width(rec.rows)
      case Failure(e) => Failure(e)
      case Success(w) =>
        if w != Dim then Failure(FeatureMismatch)
        else
          var ws := Windows(rec.rows, length);
          if ws == [] then Success(front)
          else if rec.gesture !in ids then Failure(KeyError)
          else Success(front + Labelled(ws, ids[rec.gesture]))
  }

  /** A record the loop gets past: six-wide rows, and a class with an id when it yields a window. */
  predicate Accepted(rec: Record, ids: map<string, int>, length: nat) {
    WellShaped(rec.rows) && (|rec.rows| >= length ==> rec.gesture in ids)
  }

  /** The record loop finishes exactly when every record is accepted. */
  lemma {:induction false} SliceSucceeds(records: seq<Record>, ids: map<string, int>, length: nat)
    ensures Slice(records, ids, length).Success? <==> forall j :: 0 <= j < |records| ==> Accepted(records[j], ids, length)
    decreases |records|
  {
    if records != [] {
      var n := |records| - 1;
      var front := records[..n];
      SliceSucceeds(front, ids, length);
      StepSucceeds(Slice(front, ids, length), records[n], ids, length);
      assert forall j :: 0 <= j < n ==> front[j] == records[j];
      if !Slice(front, ids, length).Success? {
        var j :| 0 <= j < n && !Accepted(front[j], ids, length);
        assert !Accepted(records[j], ids, length);
      }
    }
  }

  /** One pass succeeds exactly when the earlier ones did and the record is accepted. */
  lemma StepSucceeds(sofar: Result<seq<Example>, LoadError>, rec: Record, ids: map<string, int>, length: nat)
    ensures SliceStep(sofar, rec, ids, length).Success? <==> sofar.Success? && Accepted(rec, ids, length)
  {
    assert Windows(rec.rows, length) == [] <==> |rec.rows| < length;
  }

  /** The examples of a single accepted record: window k is rows k .. k + length - 1. */
  lemma SliceOne(rec: Record, ids: map<string, int>, length: nat)
    requires Accepted(rec, ids, length)
    ensures Slice([rec], ids, length).Success?
    ensures var ex := Slice([rec], ids, length).value;
      |ex| == |Windows(rec.rows, length)| &&
      forall k :: 0 <= k < |ex| ==> k + length <= |rec.rows| && ex[k] == Example(rec.rows[k..k + length], ids[rec.gesture])
  {
    assert [rec][..0] == [];
  }

  /** The examples `ex` of earlier records put in front of a result of the loop. */
  function Prefixed(ex: seq<Example>, r: Result<seq<Example>, LoadError>): Result<seq<Example>, LoadError> {
    match r
    case Failure(e) => Failure(e)
    case Success(rest) => Success(ex + rest)
  }

  /** The loop keeps going record by record: slicing two lists in turn is slicing their concatenation. */
  lemma {:induction false} SliceConcat(a: seq<Record>, b: seq<Record>, ids: map<string, int>, length: nat)
    requires Slice(a, ids, length).Success?
    ensures Slice(a + b, ids, length) == Prefixed(Slice(a, ids, length).value, Slice(b, ids, length))
    decreases |b|
  {
    var ex := Slice(a, ids, length).value;
    if b == [] {
      AppendEmpty(a, b);
      AppendEmpty(ex, []);
    } else {
      var n := |b| - 1;
      FrontOfAppend(a, b);
      SliceConcat(a, b[..n], ids, length);
      StepPrefixed(ex, Slice(b[..n], ids, length), b[n], ids, length);
    }
  }

  /** One pass of the loop does not look at the examples already collected. */
  lemma StepPrefixed(ex: seq<Example>, r: Result<seq<Example>, LoadError>, rec: Record, ids: map<string, int>, length: nat)
    ensures SliceStep(Prefixed(ex, r), rec, ids, length) == Prefixed(ex, SliceStep(r, rec, ids, length))
  {
    if r.Success? && Width(rec.rows) == Success(Dim) {
      var ws := Windows(rec.rows, length);
      if ws != [] && rec.gesture in ids {
        AppendAssoc(ex, r.value, Labelled(ws, ids[rec.gesture]));
      }
    }
  }

  /**
   * format_support_func: the ids come from the reordered listing, then the
   * records are sliced; the length returned is the number of examples.
   */
  function Format(records: seq<Record>, classes: seq<string>, length: nat): (r: Result<(nat, seq<Example>), LoadError>)
    ensures r.Success? ==> r.value.0 == |r.value.1| == WindowCount(records, length)
    ensures r.Success? ==> forall k :: 0 <= k < |r.value.1| ==> 0 <= r.value.1[k].id < Classes
    ensures |classes| < Classes ==> r == Failure(IndexError)
  {
    ReorderShape(classes);
    match TrainingIds(classes)
    case Failure(e) => Failure(e)
    case Success(ids) =>
      match Slice(records, ids, length)
      case Failure(e) => Failure(e)
      case Success(ex) => Success((|ex|, ex))
  }

  /** format_support_func_vis: the same slicing with ids from the listing as it is. */
  function FormatVis(records: seq<Record>, classes: seq<string>, length: nat): (r: Result<seq<Example>, LoadError>)
    ensures r.Success? ==> |r.value| == WindowCount(records, length)
    ensures r.Success? ==> forall k :: 0 <= k < |r.value| ==> 0 <= r.value[k].id < Classes
    ensures |classes| < Classes ==> r == Failure(IndexError)
  {
    match VisIds(classes)
    case Failure(e) => Failure(e)
    case Success(ids) => Slice(records, ids, length)
  }

  /** Where the listing needs no reordering, both variants give the same examples. */
  lemma FormatAgreesWithVis(records: seq<Record>, classes: seq<string>, length: nat)
    requires |classes| >= Classes
    requires FirstNegative(classes, 0).None? || FirstNegative(classes, 0).value == |classes| - 1
    ensures Format(records, classes, length).Success? <==> FormatVis(records, classes, length).Success?
    ensures Format(records, classes, length).Success? ==>
      Format(records, classes, length).value.1 == FormatVis(records, classes, length).value
  {
    IdsAgreeWhenReorderIsIdentity(classes);
  }
}
