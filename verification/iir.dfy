/**
 * The direct-form IIR filter of source/processing.h and source/processing.c:
 * a state record with ten input and ten output taps, the initialisation
 * that bounds the order, the one-sample step, and the filter run down one
 * strided column of a row-major buffer. Sample values are reals.
 */
module Iir {
  import opened Layout

  /** Length of each tap array in the filter state. */
  const MaxStates: nat := 10

  /** Numerator coefficients of the third-order Butterworth low-pass. */
  const ButterB: seq<real> := [0.01809893, 0.0542968, 0.0542968, 0.01809893]

  /** Denominator coefficients of the third-order Butterworth low-pass. */
  const ButterA: seq<real> := [1.0, -1.76004188, 1.18289326, -0.27805992]

  /** The filter order every caller uses with the Butterworth tables. */
  const ButterOrder: int := 3

  /** iir_filter_struct: coefficient tables, input taps, output taps and order. */
  datatype FilterState = FilterState(b: seq<real>, a: seq<real>, xStates: seq<real>, yStates: seq<real>, order: int)

  /** The two tap arrays have their declared length. */
  predicate HasTaps(st: FilterState) {
    |st.xStates| == MaxStates && |st.yStates| == MaxStates
  }

  /** Every index the step reads or writes is in bounds: taps 0..order, b[0..order], a[1..order]. */
  predicate Steppable(st: FilterState) {
    && HasTaps(st)
    && st.order < MaxStates
    && |st.b| > 0 && |st.b| > st.order
    && |st.a| > st.order
  }

  /** Taps 1..order hold no history. */
  predicate Fresh(st: FilterState)
    requires HasTaps(st)
  {
    forall k :: 1 <= k <= st.order && k < MaxStates ==> st.xStates[k] == 0.0 && st.yStates[k] == 0.0
  }

  /** `s` with entries `0..upto` (inclusive) set to zero. */
  function ZeroUpTo(s: seq<real>, upto: int): (r: seq<real>)
    ensures |r| == |s|
    ensures forall k :: 0 <= k < |s| ==> r[k] == (if k <= upto then 0.0 else s[k])
  {
    seq(|s|, k requires 0 <= k < |s| => if k <= upto then 0.0 else s[k])
  }

  /**
   * iir_filter_init: the tables and the order are stored first; an order of
   * MaxStates or more is refused with -1; otherwise taps 0..order are zeroed.
   */
  function Init(st: FilterState, b: seq<real>, a: seq<real>, order: int): (r: (FilterState, int))
    requires HasTaps(st)
    ensures HasTaps(r.0)
    ensures r.0.b == b && r.0.a == a && r.0.order == order
    ensures r.1 == 0 || r.1 == -1
    ensures r.1 == -1 <==> order >= MaxStates
    ensures r.1 == -1 ==> r.0.xStates == st.xStates && r.0.yStates == st.yStates
    ensures r.1 == 0 ==> Fresh(r.0)
    ensures r.1 == 0 && order >= 0 ==> r.0.xStates[0] == 0.0 && r.0.yStates[0] == 0.0
    ensures r.1 == 0 ==> forall k :: 0 <= k < MaxStates && order < k ==> r.0.xStates[k] == st.xStates[k] && r.0.yStates[k] == st.yStates[k]
  {
    var stored := st.(b := b, a := a, order := order);
    if order >= MaxStates then (stored, -1)
    else (stored.(xStates := ZeroUpTo(st.xStates, order), yStates := ZeroUpTo(st.yStates, order)), 0)
  }

  /** iir_filter_init written as the C loop over `i < n_order + 1`. */
  method InitLoop(st: FilterState, b: seq<real>, a: seq<real>, order: int) returns (r: FilterState, code: int)
    requires HasTaps(st)
    ensures r == Init(st, b, a, order).0 && code == Init(st, b, a, order).1
  {
    r := st.(b := b, a := a, order := order);
    if order >= MaxStates {
      return r, -1;
    }
    var i := 0;
    while i < order + 1
      invariant 0 <= i && (order >= 0 ==> i <= order + 1) && (order < 0 ==> i == 0)
      invariant r.b == b && r.a == a && r.order == order
      invariant r.xStates == ZeroUpTo(st.xStates, i - 1)
      invariant r.yStates == ZeroUpTo(st.yStates, i - 1)
    {
      r := r.(xStates := r.xStates[i := 0.0], yStates := r.yStates[i := 0.0]);
      i := i + 1;
    }
    code := 0;
  }

  /** The weight `c` applied to the sample `x`. */
  function Gain(c: real, x: real): (r: real)
    ensures c == 1.0 ==> r == x
  {
    c * x
  }

  /** The feedforward and feedback terms of taps 1..j: the sum of b[k]*x[k] - a[k]*y[k]. */
  function TapSum(b: seq<real>, a: seq<real>, x: seq<real>, y: seq<real>, j: int): (r: real)
    requires j <= 0 || (j < |b| && j < |a| && j < |x| && j < |y|)
    decreases j
  {
    if j <= 0 then 0.0 else TapSum(b, a, x, y, j - 1) + Gain(b[j], x[j]) - Gain(a[j], y[j])
  }

  /** The tap shift of iir_filter: tap k+1 takes tap k for k = order-1 down to 0. */
  function ShiftTaps(s: seq<real>, order: int): (r: seq<real>)
    requires order < |s|
    ensures |r| == |s|
  {
    seq(|s|, k requires 0 <= k < |s| => if 1 <= k <= order then s[k - 1] else s[k])
  }

  /**
   * One sample of iir_filter: the input enters tap x[0], the output is
   * b[0]*x[0] plus TapSum over taps 1..order, the output enters y[0], and
   * both tap arrays move up by one place below the order.
   */
  function Step(st: FilterState, input: real): (r: (FilterState, real))
    requires Steppable(st)
    ensures Steppable(r.0)
    ensures r.0.b == st.b && r.0.a == st.a && r.0.order == st.order
    ensures r.0.xStates[0] == input && r.0.yStates[0] == r.1
    ensures st.order >= 1 ==> r.0.xStates[1] == input && r.0.yStates[1] == r.1
    ensures forall k :: 2 <= k <= st.order ==> r.0.xStates[k] == st.xStates[k - 1] && r.0.yStates[k] == st.yStates[k - 1]
    ensures forall k :: st.order < k < MaxStates && k >= 1 ==> r.0.xStates[k] == st.xStates[k] && r.0.yStates[k] == st.yStates[k]
  {
    var out := Output(st, input);
    (st.(xStates := ShiftTaps(st.xStates[0 := input], st.order), yStates := ShiftTaps(st.yStates[0 := out], st.order)), out)
  }

  /** The output sample of one step: b[0] times the input plus the tap terms, with the input already in tap x[0]. */
  function Output(st: FilterState, input: real): real
    requires Steppable(st)
  {
    Gain(st.b[0], input) + TapSum(st.b, st.a, st.xStates[0 := input], st.yStates, st.order)
  }

  /** One sample of iir_filter written as its two C loops: accumulate over j = 1..n, then shift j = n-1 down to 0. */
  method StepLoop(st: FilterState, input: real) returns (r: FilterState, out: real)
    requires Steppable(st)
    ensures r == Step(st, input).0 && out == Step(st, input).1
  {
    var x := st.xStates[0 := input];
    out := AccumulateLoop(st, x, st.yStates);
    var y := st.yStates[0 := out];
    x, y := ShiftLoop(x, y, st.order);
    r := st.(xStates := x, yStates := y);
  }

  /** The first loop of iir_filter: b[0]*x[0], then b[j]*x[j] - a[j]*y[j] added for j = 1..order. */
  method AccumulateLoop(st: FilterState, x: seq<real>, y: seq<real>) returns (out: real)
    requires Steppable(st) && |x| == MaxStates && |y| == MaxStates
    ensures out == Gain(st.b[0], x[0]) + TapSum(st.b, st.a, x, y, st.order)
  {
    out := st.b[0] * x[0];
    var j := 1;
    while j < st.order + 1
      invariant 1 <= j && (st.order >= 1 ==> j <= st.order + 1) && (st.order < 1 ==> j == 1)
      invariant out == Gain(st.b[0], x[0]) + TapSum(st.b, st.a, x, y, j - 1)
    {
      out := out + st.b[j] * x[j];
      out := out - st.a[j] * y[j];
      j := j + 1;
    }
  }

  /** The second loop of iir_filter: for j = order-1 down to 0, tap j moves to tap j+1 in both arrays. */
  method ShiftLoop(x0: seq<real>, y0: seq<real>, order: int) returns (x: seq<real>, y: seq<real>)
    requires |x0| == MaxStates && |y0| == MaxStates && order < MaxStates
    ensures x == ShiftTaps(x0, order) && y == ShiftTaps(y0, order)
  {
    x, y := x0, y0;
    var j := order - 1;
    while j > -1
      invariant j <= order - 1 && j < MaxStates - 1 && (j < -1 ==> j == order - 1)
      invariant |x| == MaxStates && |y| == MaxStates
      invariant forall k :: 0 <= k < MaxStates && (k <= j + 1 || order < k) ==> x[k] == x0[k] && y[k] == y0[k]
      invariant forall k :: j + 1 < k <= order ==> x[k] == x0[k - 1] && y[k] == y0[k - 1]
    {
      x := x[j + 1 := x[j]];
      y := y[j + 1 := y[j]];
      j := j - 1;
    }
  }

  /** A list of samples fed through Step in order: the final state and every output. */
  function FilterSeq(st: FilterState, inputs: seq<real>): (r: (FilterState, seq<real>))
    requires Steppable(st)
    ensures Steppable(r.0) && r.0.b == st.b && r.0.a == st.a && r.0.order == st.order
    ensures |r.1| == |inputs|
    decreases |inputs|
  {
    if inputs == [] then (st, [])
    else
      var (mid, outs) := FilterSeq(st, inputs[..|inputs| - 1]);
      var (last, out) := Step(mid, inputs[|inputs| - 1]);
      (last, outs + [out])
  }

  /** Element `k` of `s`, and zero before the start: the zero initial conditions of the difference equation. */
  function Past(s: seq<real>, k: int): real {
    if 0 <= k < |s| then s[k] else 0.0
  }

  /** The right-hand side of the difference equation at sample `i`, over taps 1..j. */
  function History(b: seq<real>, a: seq<real>, xs: seq<real>, ys: seq<real>, i: int, j: int): real
    requires j <= 0 || (j < |b| && j < |a|)
    decreases j
  {
    if j <= 0 then 0.0 else History(b, a, xs, ys, i, j - 1) + Gain(b[j], Past(xs, i - j)) - Gain(a[j], Past(ys, i - j))
  }

  /** The state remembers the last `order` inputs and outputs of the samples seen so far. */
  predicate Remembers(st: FilterState, xs: seq<real>, ys: seq<real>)
    requires HasTaps(st)
  {
    forall k :: 1 <= k <= st.order && k < MaxStates ==>
      st.xStates[k] == Past(xs, |xs| - k) && st.yStates[k] == Past(ys, |ys| - k)
  }

  lemma {:induction false} TapSumIsHistory(st: FilterState, x: seq<real>, xs: seq<real>, ys: seq<real>, j: int)
    requires Steppable(st) && |x| == MaxStates && j <= st.order
    requires forall k :: 1 <= k <= st.order ==> x[k] == st.xStates[k]
    requires Remembers(st, xs, ys) && |xs| == |ys|
    ensures TapSum(st.b, st.a, x, st.yStates, j) == History(st.b, st.a, xs, ys, |xs|, j)
    decreases j
  {
    if j > 0 {
      TapSumIsHistory(st, x, xs, ys, j - 1);
    }
  }

  /** The step's output is the difference equation over the remembered history. */
  lemma StepOutputIsHistory(st: FilterState, xs: seq<real>, ys: seq<real>, input: real)
    requires Steppable(st) && Remembers(st, xs, ys) && |xs| == |ys|
    ensures Step(st, input).1 == Gain(st.b[0], input) + History(st.b, st.a, xs, ys, |xs|, st.order)
  {
    assert Step(st, input).1 == Output(st, input);
    TapSumIsHistory(st, st.xStates[0 := input], xs, ys, st.order);
  }

  /** After a step the taps remember one more input and output. */
  lemma StepKeepsMemory(st: FilterState, xs: seq<real>, ys: seq<real>, input: real)
    requires Steppable(st) && Remembers(st, xs, ys) && |xs| == |ys|
    ensures Remembers(Step(st, input).0, xs + [input], ys + [Step(st, input).1])
  {
    var r := Step(st, input);
    var next, out := r.0, r.1;
    var xs2, ys2 := xs + [input], ys + [out];
    forall k | 1 <= k <= st.order && k < MaxStates
      ensures next.xStates[k] == Past(xs2, |xs2| - k) && next.yStates[k] == Past(ys2, |ys2| - k)
    {
      if k == 1 {
        assert next.xStates[1] == input && next.yStates[1] == out;
      } else {
        assert next.xStates[k] == st.xStates[k - 1] && next.yStates[k] == st.yStates[k - 1];
        assert Past(xs2, |xs2| - k) == Past(xs, |xs| - (k - 1));
        assert Past(ys2, |ys2| - k) == Past(ys, |ys| - (k - 1));
      }
    }
  }

  /** A filter started with no history remembers the last `order` samples it has seen. */
  lemma {:induction false} FilterSeqRemembers(st: FilterState, inputs: seq<real>)
    requires Steppable(st) && Fresh(st)
    ensures Remembers(FilterSeq(st, inputs).0, inputs, FilterSeq(st, inputs).1)
    decreases |inputs|
  {
    if inputs != [] {
      var front, u := inputs[..|inputs| - 1], inputs[|inputs| - 1];
      FilterSeqRemembers(st, front);
      var (mid, outs) := FilterSeq(st, front);
      StepKeepsMemory(mid, front, outs, u);
      assert front + [u] == inputs;
    }
  }

  /** History at sample `i` reads only samples before `i`, so extending both lists does not change it. */
  lemma {:induction false} HistoryOfPrefix(b: seq<real>, a: seq<real>, xs: seq<real>, ys: seq<real>, xs2: seq<real>, ys2: seq<real>, i: int, j: int)
    requires (j <= 0 || (j < |b| && j < |a|)) && 0 <= i <= |xs| && i <= |ys|
    requires xs <= xs2 && ys <= ys2
    ensures History(b, a, xs, ys, i, j) == History(b, a, xs2, ys2, i, j)
    decreases j
  {
    if j > 0 {
      HistoryOfPrefix(b, a, xs, ys, xs2, ys2, i, j - 1);
    }
  }

  /**
   * From a state with no history, the filter computes the difference
   * equation y[i] = b[0]*x[i] + sum over j = 1..order of (b[j]*x[i-j] - a[j]*y[i-j]),
   * with x and y zero before the first sample.
   */
  lemma {:induction false} DifferenceEquation(st: FilterState, inputs: seq<real>)
    requires Steppable(st) && Fresh(st)
    ensures forall i :: 0 <= i < |inputs| ==>
      FilterSeq(st, inputs).1[i] == Gain(st.b[0], inputs[i]) + History(st.b, st.a, inputs, FilterSeq(st, inputs).1, i, st.order)
    decreases |inputs|
  {
    if inputs != [] {
      var front, u := inputs[..|inputs| - 1], inputs[|inputs| - 1];
      assert inputs == front + [u];
      DifferenceEquation(st, front);
      FilterSeqRemembers(st, front);
      var (mid, outs) := FilterSeq(st, front);
      var y := Step(mid, u).1;
      StepOutputIsHistory(mid, front, outs, u);
      assert FilterSeq(st, inputs).1 == outs + [y];
      forall i | 0 <= i < |inputs|
        ensures FilterSeq(st, inputs).1[i] == Gain(st.b[0], inputs[i]) + History(st.b, st.a, inputs, FilterSeq(st, inputs).1, i, st.order)
      {
        if i < |front| {
          EquationExtends(st, front, outs, u, y, inputs, FilterSeq(st, inputs).1, i);
        } else {
          EquationAppends(st, front, outs, u, y, inputs, FilterSeq(st, inputs).1);
        }
      }
    }
  }

  /** The difference equation at an earlier sample `i` survives appending one input and its output. */
  lemma EquationExtends(st: FilterState, front: seq<real>, outs: seq<real>, u: real, y: real, xs: seq<real>, ys: seq<real>, i: int)
    requires Steppable(st) && |outs| == |front| && 0 <= i < |front|
    requires xs == front + [u] && ys == outs + [y]
    requires outs[i] == Gain(st.b[0], front[i]) + History(st.b, st.a, front, outs, i, st.order)
    ensures ys[i] == Gain(st.b[0], xs[i]) + History(st.b, st.a, xs, ys, i, st.order)
  {
    HistoryOfPrefix(st.b, st.a, front, outs, xs, ys, i, st.order);
    assert ys[i] == outs[i] && xs[i] == front[i];
  }

  /** The appended output satisfies the difference equation when it is computed from the earlier samples. */
  lemma EquationAppends(st: FilterState, front: seq<real>, outs: seq<real>, u: real, y: real, xs: seq<real>, ys: seq<real>)
    requires Steppable(st) && |outs| == |front|
    requires xs == front + [u] && ys == outs + [y]
    requires y == Gain(st.b[0], u) + History(st.b, st.a, front, outs, |front|, st.order)
    ensures ys[|front|] == Gain(st.b[0], xs[|front|]) + History(st.b, st.a, xs, ys, |front|, st.order)
  {
    HistoryOfPrefix(st.b, st.a, front, outs, xs, ys, |front|, st.order);
    assert ys[|front|] == y && xs[|front|] == u;
  }

  /** Taps 1..order of the two states agree, and so do the tables and the order. */
  predicate SameHistory(s1: FilterState, s2: FilterState)
    requires HasTaps(s1) && HasTaps(s2)
  {
    && s1.b == s2.b && s1.a == s2.a && s1.order == s2.order
    && forall k :: 1 <= k <= s1.order && k < MaxStates ==> s1.xStates[k] == s2.xStates[k] && s1.yStates[k] == s2.yStates[k]
  }

  /** Only taps 1..order influence the filter: states with the same history give the same outputs. */
  lemma {:induction false} OutputDependsOnlyOnHistory(s1: FilterState, s2: FilterState, inputs: seq<real>)
    requires Steppable(s1) && Steppable(s2) && SameHistory(s1, s2)
    ensures SameHistory(FilterSeq(s1, inputs).0, FilterSeq(s2, inputs).0)
    ensures FilterSeq(s1, inputs).1 == FilterSeq(s2, inputs).1
    decreases |inputs|
  {
    if inputs != [] {
      var front, u := inputs[..|inputs| - 1], inputs[|inputs| - 1];
      OutputDependsOnlyOnHistory(s1, s2, front);
      var (m1, outs1) := FilterSeq(s1, front);
      var (m2, outs2) := FilterSeq(s2, front);
      StepSameHistory(m1, m2, u);
      assert FilterSeq(s1, inputs) == (Step(m1, u).0, outs1 + [Step(m1, u).1]);
      assert FilterSeq(s2, inputs) == (Step(m2, u).0, outs2 + [Step(m2, u).1]);
    }
  }

  /** One step from two states with the same history gives the same output and again the same history. */
  lemma StepSameHistory(s1: FilterState, s2: FilterState, u: real)
    requires Steppable(s1) && Steppable(s2) && SameHistory(s1, s2)
    ensures Step(s1, u).1 == Step(s2, u).1
    ensures SameHistory(Step(s1, u).0, Step(s2, u).0)
  {
    SameTapsSameSum(s1, s2, s1.xStates[0 := u], s2.xStates[0 := u], s1.order);
    assert Output(s1, u) == Output(s2, u);
    var n1, n2 := Step(s1, u).0, Step(s2, u).0;
    forall k | 1 <= k <= n1.order && k < MaxStates
      ensures n1.xStates[k] == n2.xStates[k] && n1.yStates[k] == n2.yStates[k]
    {
      if k >= 2 {
        assert n1.xStates[k] == s1.xStates[k - 1] && n2.xStates[k] == s2.xStates[k - 1];
      }
    }
  }

  lemma {:induction false} SameTapsSameSum(s1: FilterState, s2: FilterState, x1: seq<real>, x2: seq<real>, j: int)
    requires Steppable(s1) && Steppable(s2) && SameHistory(s1, s2)
    requires |x1| == MaxStates && |x2| == MaxStates && j <= s1.order
    requires forall k :: 1 <= k <= s1.order ==> x1[k] == s1.xStates[k] && x2[k] == s2.xStates[k]
    ensures TapSum(s1.b, s1.a, x1, s1.yStates, j) == TapSum(s2.b, s2.a, x2, s2.yStates, j)
    decreases j
  {
    if j > 0 {
      SameTapsSameSum(s1, s2, x1, x2, j - 1);
      assert x1[j] == s1.xStates[j] == s2.xStates[j] == x2[j];
      assert s1.yStates[j] == s2.yStates[j];
    }
  }

  /**
   * Re-initialising before a run makes the outputs a function of the
   * tables, the order and the inputs alone: whatever the two states held
   * before, the runs agree.
   */
  lemma InitForgetsPriorState(st1: FilterState, st2: FilterState, b: seq<real>, a: seq<real>, order: int, inputs: seq<real>)
    requires HasTaps(st1) && HasTaps(st2)
    requires order < MaxStates && |b| > 0 && |b| > order && |a| > order
    ensures Steppable(Init(st1, b, a, order).0) && Steppable(Init(st2, b, a, order).0)
    ensures FilterSeq(Init(st1, b, a, order).0, inputs).1 == FilterSeq(Init(st2, b, a, order).0, inputs).1
  {
    OutputDependsOnlyOnHistory(Init(st1, b, a, order).0, Init(st2, b, a, order).0, inputs);
  }

  /** From a state with no history, an all-zero input gives an all-zero output. */
  lemma {:induction false} ZeroInZeroOut(st: FilterState, inputs: seq<real>)
    requires Steppable(st) && Fresh(st)
    requires forall i :: 0 <= i < |inputs| ==> inputs[i] == 0.0
    ensures Fresh(FilterSeq(st, inputs).0)
    ensures forall i :: 0 <= i < |inputs| ==> FilterSeq(st, inputs).1[i] == 0.0
    decreases |inputs|
  {
    if inputs != [] {
      var front := inputs[..|inputs| - 1];
      ZeroInZeroOut(st, front);
      var mid := FilterSeq(st, front).0;
      ZeroTapsZeroSum(mid, mid.xStates[0 := 0.0], mid.order);
    }
  }

  lemma {:induction false} ZeroTapsZeroSum(st: FilterState, x: seq<real>, j: int)
    requires Steppable(st) && Fresh(st) && |x| == MaxStates && j <= st.order
    requires forall k :: 1 <= k <= st.order ==> x[k] == 0.0
    ensures TapSum(st.b, st.a, x, st.yStates, j) == 0.0
    decreases j
  {
    if j > 0 {
      ZeroTapsZeroSum(st, x, j - 1);
    }
  }

  /** Every tap 1..order of both arrays holds `c`. */
  predicate Settled(st: FilterState, c: real)
    requires HasTaps(st)
  {
    forall k :: 1 <= k <= st.order && k < MaxStates ==> st.xStates[k] == c && st.yStates[k] == c
  }

  /**
   * The Butterworth tables: four entries each (order + 1), a[0] is 1, b is
   * palindromic, both sum to 0.14479146, and initialising with them succeeds.
   */
  lemma ButterworthTables(st: FilterState)
    requires HasTaps(st)
    ensures |ButterB| == ButterOrder + 1 && |ButterA| == ButterOrder + 1
    ensures ButterA[0] == 1.0
    ensures ButterB[0] == ButterB[3] && ButterB[1] == ButterB[2]
    ensures ButterB[0] + ButterB[1] + ButterB[2] + ButterB[3] == 0.14479146
    ensures ButterA[0] + ButterA[1] + ButterA[2] + ButterA[3] == 0.14479146
    ensures Init(st, ButterB, ButterA, ButterOrder).1 == 0 && Steppable(Init(st, ButterB, ButterA, ButterOrder).0)
  {
  }

  /**
   * Unity gain at DC: with the Butterworth tables, a filter whose taps all
   * hold `c` maps the input `c` to the output `c` and stays settled at `c`.
   */
  lemma ButterworthUnityDcGain(st: FilterState, c: real)
    requires Steppable(st) && st.b == ButterB && st.a == ButterA && st.order == ButterOrder
    requires Settled(st, c)
    ensures Step(st, c).1 == c
    ensures Settled(Step(st, c).0, c)
  {
    var x := st.xStates[0 := c];
    assert TapSum(st.b, st.a, x, st.yStates, 3)
        == ButterB[1] * c - ButterA[1] * c + ButterB[2] * c - ButterA[2] * c + ButterB[3] * c - ButterA[3] * c;
  }

  /** A settled Butterworth filter fed a constant input reproduces it exactly. */
  lemma {:induction false} ButterworthPassesConstant(st: FilterState, c: real, n: nat)
    requires Steppable(st) && st.b == ButterB && st.a == ButterA && st.order == ButterOrder
    requires Settled(st, c)
    ensures Settled(FilterSeq(st, seq(n, _ => c)).0, c)
    ensures FilterSeq(st, seq(n, _ => c)).1 == seq(n, _ => c)
    decreases n
  {
    if n > 0 {
      var inputs, front := seq(n, _ => c), seq(n - 1, _ => c);
      assert inputs[..n - 1] == front;
      ButterworthPassesConstant(st, c, n - 1);
      var (mid, outs) := FilterSeq(st, front);
      ButterworthUnityDcGain(mid, c);
      assert FilterSeq(st, inputs) == (Step(mid, c).0, outs + [c]);
      ConstantGrows(c, n);
    }
  }

  /** A constant list of n samples is the one of n - 1 samples and one more. */
  lemma ConstantGrows(c: real, n: nat)
    requires n > 0
    ensures seq(n - 1, _ => c) + [c] == seq(n, _ => c)
  {
  }

  /**
   * iir_filter: samples 0..length-1 of the column are read, stepped through
   * the filter and overwritten with the outputs, in row order; every other
   * entry of the buffer is left as it was.
   */
  function FilterColumn(st: FilterState, buf: seq<real>, length: nat, column: nat, width: nat): (r: (FilterState, seq<real>))
    requires Steppable(st) && ColumnFits(|buf|, length, column, width)
    ensures Steppable(r.0) && r.0.b == st.b && r.0.a == st.a && r.0.order == st.order
    ensures |r.1| == |buf|
    decreases length
  {
    if length == 0 then (st, buf)
    else
      ColumnFitsShorter(|buf|, length, column, width);
      var (mid, partial) := FilterColumn(st, buf, length - 1, column, width);
      var at := Index(length - 1, column, width);
      var (last, out) := Step(mid, partial[at]);
      (last, partial[at := out])
  }

  /** iir_filter writes only the column's first `length` positions: every other entry is left as it was. */
  lemma {:induction false} FilterColumnFrame(st: FilterState, buf: seq<real>, length: nat, column: nat, width: nat)
    requires Steppable(st) && ColumnFits(|buf|, length, column, width)
    ensures forall k :: 0 <= k < |buf| && k !in Touched(length, column, width) ==>
      FilterColumn(st, buf, length, column, width).1[k] == buf[k]
    decreases length
  {
    if length > 0 {
      ColumnFitsShorter(|buf|, length, column, width);
      FilterColumnFrame(st, buf, length - 1, column, width);
    }
  }

  /** Filtering one column leaves every other column of the first `length` rows as it was. */
  lemma FilterColumnOtherColumns(st: FilterState, buf: seq<real>, length: nat, column: nat, width: nat)
    requires Steppable(st) && ColumnFits(|buf|, length, column, width)
    requires column < width && Index(length, 0, width) <= |buf|
    ensures forall i, c :: 0 <= i < length && 0 <= c < width && c != column ==>
      Index(i, c, width) < |buf| && FilterColumn(st, buf, length, column, width).1[Index(i, c, width)] == buf[Index(i, c, width)]
  {
    FilterColumnFrame(st, buf, length, column, width);
    forall i, c | 0 <= i < length && 0 <= c < width && c != column
      ensures Index(i, c, width) < |buf| && FilterColumn(st, buf, length, column, width).1[Index(i, c, width)] == buf[Index(i, c, width)]
    {
      IndexInRows(i, c, length, width);
      forall j | 0 <= j < length
        ensures Index(i, c, width) != Index(j, column, width)
      {
        IndexInjective(i, c, j, column, width);
      }
      assert Index(i, c, width) !in Touched(length, column, width);
    }
  }

  /** Loading the Butterworth tables into any record gives a record the step can run on. */
  lemma ButterworthRestartSteps(st: FilterState)
    requires HasTaps(st)
    ensures Init(st, ButterB, ButterA, ButterOrder).1 == 0
    ensures Steppable(Init(st, ButterB, ButterA, ButterOrder).0)
  {
  }

  /**
   * With rows at least one entry wide the column's positions are distinct,
   * so filtering the column in place is the list filter applied to the
   * column: the final state is the same and sample `i` of the column is
   * replaced by output `i`.
   */
  lemma {:induction false} FilterColumnIsFilterSeq(st: FilterState, buf: seq<real>, length: nat, column: nat, width: nat)
    requires Steppable(st) && ColumnFits(|buf|, length, column, width) && width > 0
    ensures FilterColumn(st, buf, length, column, width).0 == FilterSeq(st, Column(buf, length, column, width)).0
    ensures forall i :: 0 <= i < length ==>
      Index(i, column, width) < |buf| &&
      FilterColumn(st, buf, length, column, width).1[Index(i, column, width)] == FilterSeq(st, Column(buf, length, column, width)).1[i]
    decreases length
  {
    if length > 0 {
      var n := length - 1;
      ColumnFitsShorter(|buf|, length, column, width);
      FilterColumnIsFilterSeq(st, buf, n, column, width);
      FilterColumnFrame(st, buf, n, column, width);
      var at := Index(n, column, width);
      var (mid, partial) := FilterColumn(st, buf, n, column, width);
      forall i | 0 <= i < n
        ensures Index(i, column, width) < at
      {
        IndexIncreasing(i, n, column, width);
      }
      assert at !in Touched(n, column, width);
      assert partial[at] == buf[at];
      var col := Column(buf, length, column, width);
      assert col[..n] == Column(buf, n, column, width);
      var prefix := FilterSeq(st, Column(buf, n, column, width));
      assert FilterSeq(st, col[..n]) == prefix;
      assert prefix.0 == mid;
      var y := Step(mid, buf[at]).1;
      var outs := prefix.1 + [y];
      assert FilterSeq(st, col) == (Step(mid, buf[at]).0, outs);
      FilterColumnNext(st, buf, n, column, width);
      ExtendColumn(partial, prefix.1, n, column, width, y);
    }
  }

  /**
   * If the first `n` samples of a column hold `outs`, writing `y` at the
   * position of sample `n` makes the first `n + 1` samples hold `outs + [y]`.
   */
  lemma ExtendColumn(buf: seq<real>, outs: seq<real>, n: nat, column: nat, width: nat, y: real)
    requires width > 0 && Index(n, column, width) < |buf| && |outs| == n
    requires forall i :: 0 <= i < n ==> Index(i, column, width) < |buf| && buf[Index(i, column, width)] == outs[i]
    ensures forall i :: 0 <= i < n + 1 ==>
      Index(i, column, width) < |buf| && buf[Index(n, column, width) := y][Index(i, column, width)] == (outs + [y])[i]
  {
    forall i | 0 <= i < n + 1
      ensures Index(i, column, width) < |buf| && buf[Index(n, column, width) := y][Index(i, column, width)] == (outs + [y])[i]
    {
      if i < n {
        IndexIncreasing(i, n, column, width);
      }
    }
  }

  /** One more sample of the column: the step applied to the entry at its position. */
  lemma FilterColumnNext(st: FilterState, buf: seq<real>, i: nat, column: nat, width: nat)
    requires Steppable(st) && ColumnFits(|buf|, i + 1, column, width)
    ensures ColumnFits(|buf|, i, column, width)
    ensures var (mid, partial) := FilterColumn(st, buf, i, column, width);
            var at := Index(i, column, width);
            FilterColumn(st, buf, i + 1, column, width) == (Step(mid, partial[at]).0, partial[at := Step(mid, partial[at]).1])
  {
    ColumnFitsShorter(|buf|, i + 1, column, width);
  }

  /** One more sample of the column: it lies inside the buffer and is the next one stepped and written back. */
  lemma FilterColumnAdvance(st: FilterState, buf: seq<real>, i: nat, length: nat, column: nat, width: nat)
    requires Steppable(st) && i < length && ColumnFits(|buf|, length, column, width)
    ensures ColumnFits(|buf|, i + 1, column, width) && Index(i, column, width) < |buf|
    ensures var (mid, partial) := FilterColumn(st, buf, i, column, width);
            var at := Index(i, column, width);
            FilterColumn(st, buf, i + 1, column, width) == (Step(mid, partial[at]).0, partial[at := Step(mid, partial[at]).1])
  {
    ColumnFitsPrefix(|buf|, i + 1, length, column, width);
    FilterColumnNext(st, buf, i, column, width);
  }

  /** iir_filter written as its outer C loop over `i < length`, one StepLoop per sample. */
  method FilterColumnLoop(st: FilterState, buf: seq<real>, length: nat, column: nat, width: nat) returns (r: FilterState, out: seq<real>)
    requires Steppable(st) && ColumnFits(|buf|, length, column, width)
    ensures r == FilterColumn(st, buf, length, column, width).0 && out == FilterColumn(st, buf, length, column, width).1
  {
    r, out := st, buf;
    var i: nat := 0;
    while i < length
      invariant i <= length && ColumnFits(|buf|, i, column, width)
      invariant r == FilterColumn(st, buf, i, column, width).0 && out == FilterColumn(st, buf, i, column, width).1
    {
      r, out := FilterSampleLoop(st, buf, i, length, column, width, r, out);
      i := i + 1;
    }
  }

  /** The body of the loop in iir_filter: sample `i` of the column read, stepped through the filter and overwritten. */
  method FilterSampleLoop(st: FilterState, buf: seq<real>, i: nat, length: nat, column: nat, width: nat, r0: FilterState, out0: seq<real>)
    returns (r: FilterState, out: seq<real>)
    requires Steppable(st) && i < length && ColumnFits(|buf|, length, column, width) && ColumnFits(|buf|, i, column, width)
    requires r0 == FilterColumn(st, buf, i, column, width).0 && out0 == FilterColumn(st, buf, i, column, width).1
    ensures ColumnFits(|buf|, i + 1, column, width)
    ensures r == FilterColumn(st, buf, i + 1, column, width).0 && out == FilterColumn(st, buf, i + 1, column, width).1
  {
    var at := Index(i, column, width);
    FilterColumnAdvance(st, buf, i, length, column, width);
    var y;
    r, y := StepLoop(r0, out0[at]);
    out := out0[at := y];
  }
}
