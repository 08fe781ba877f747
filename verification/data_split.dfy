/**
 * train/data_split.py: split_data. The examples of four classes are
 * counted per class, each class gets a training quota of
 * int(train_ratio * count) and a validation quota of
 * int(valid_ratio * count), and the shuffled list is dealt out in order:
 * an example goes to training while its class has training quota left,
 * then to validation, then to test. Examples of other classes are
 * dropped. The seeded shuffle is outside the model: the list arrives
 * already shuffled, and the per-class counts, which a shuffle does not
 * change, are taken on it.
 */
module DataSplit {
  import opened Results
  import opened Numeric
  import opened Seqs
  import opened DataPrepare

  /** The exception split_data can raise: fewer than four gesture names. */
  datatype SplitError = IndexError

  /** The number of gesture names num_dic is built from. */
  const Classes: nat := 4

  /** The keys of num_dic: the first four gesture names, repeats collapsed. */
  function Keys(gestures: seq<string>): (r: Result<set<string>, SplitError>)
    ensures r.Success? <==> |gestures| >= Classes
    ensures r.Success? ==> forall g :: g in r.value <==> exists k :: 0 <= k < Classes && gestures[k] == g
  {
    if |gestures| < Classes then Failure(IndexError)
    else Success({gestures[0], gestures[1], gestures[2], gestures[3]})
  }

  /** How many examples of class `g` the list holds. */
  function Count(items: seq<Example>, g: string): (n: nat)
    ensures n <= |items|
    decreases |items|
  {
    if items == [] then 0
    else Count(items[..|items| - 1], g) + (if items[|items| - 1].gesture == g then 1 else 0)
  }

  /** int(ratio * count): the quota of a class, truncated toward zero. */
  function Quota(ratio: real, count: nat): int {
    Trunc(ratio * count as real)
  }

  /** For a non-negative ratio the quota is the whole part of ratio * count. */
  lemma QuotaBounds(ratio: real, count: nat)
    requires ratio >= 0.0
    ensures var q := Quota(ratio, count);
      q >= 0 && q as real <= ratio * count as real < q as real + 1.0
  {
  }

  /** The running state of the dealing loop: the three lists and the quotas left per class. */
  datatype Deal = Deal(train: seq<Example>, valid: seq<Example>, test: seq<Example>,
                       trainLeft: map<string, int>, validLeft: map<string, int>)

  /** Every class has a quota entry. */
  predicate Covers(st: Deal, keys: set<string>) {
    keys <= st.trainLeft.Keys && keys <= st.validLeft.Keys
  }

  /** One example dealt: see DealAll. */
  function DealOne(st: Deal, keys: set<string>, item: Example): (r: Deal)
    requires Covers(st, keys)
    ensures Covers(r, keys)
  {
    var g := item.gesture;
    if g !in keys then st
    else if st.trainLeft[g] > 0 then
      st.(train := st.train + [item], trainLeft := st.trainLeft[g := st.trainLeft[g] - 1])
    else if st.validLeft[g] > 0 then
      st.(valid := st.valid + [item], validLeft := st.validLeft[g := st.validLeft[g] - 1])
    else st.(test := st.test + [item])
  }

  /**
   * The dealing loop of split_data over the shuffled list: each example
   * of a class in `keys` goes to training while its class's training quota
   * is positive, decrementing it, otherwise to validation while that quota
   * is positive, otherwise to test.
   */
  function DealAll(st: Deal, keys: set<string>, items: seq<Example>): (r: Deal)
    requires Covers(st, keys)
    ensures Covers(r, keys)
    decreases |items|
  {
    if items == [] then st
    else DealOne(DealAll(st, keys, items[..|items| - 1]), keys, items[|items| - 1])
  }

  /** The quotas split_data computes for every class from the counts. */
  function Quotas(keys: set<string>, ratio: real, items: seq<Example>): (m: map<string, int>)
    ensures m.Keys == keys && forall g :: g in keys ==> m[g] == Quota(ratio, Count(items, g))
  {
    map g | g in keys :: Quota(ratio, Count(items, g))
  }

  /**
   * split_data on an already shuffled list: the training, validation and
   * test lists, or IndexError when fewer than four gesture names are given.
   */
  function SplitData(items: seq<Example>, trainRatio: real, validRatio: real, gestures: seq<string>)
    : (r: Result<(seq<Example>, seq<Example>, seq<Example>), SplitError>)
    ensures r.Success? <==> |gestures| >= Classes
  {
    match Keys(gestures)
    case Failure(e) => Failure(e)
    case Success(keys) =>
      var start := Deal([], [], [], Quotas(keys, trainRatio, items), Quotas(keys, validRatio, items));
      var end := DealAll(start, keys, items);
      Success((end.train, end.valid, end.test))
  }

  /** Where an example goes. */
  datatype Destination = Dropped | Training | Validation | Testing

  /**
   * The destination of an example as a function of its rank: the number
   * of earlier examples of its class. The first max(tq, 0) of a class go
   * to training, the next max(vq, 0) to validation, the rest to test.
   */
  function DestinationOf(keys: set<string>, tq: map<string, int>, vq: map<string, int>, earlier: seq<Example>, item: Example): (d: Destination)
    requires keys <= tq.Keys && keys <= vq.Keys
    ensures d == Dropped <==> item.gesture !in keys
  {
    var g := item.gesture;
    if g !in keys then Dropped else RankDestination(Count(earlier, g), tq[g], vq[g])
  }

  /** The destination of the example of rank `rank` in a class with quotas `tq` and `vq`. */
  function RankDestination(rank: nat, tq: int, vq: int): (d: Destination)
    ensures d != Dropped
  {
    if rank < tq then Training
    else if rank < Max(tq, 0) + vq then Validation
    else Testing
  }

  /**
   * How many of the ranks 0 .. n-1 go to `d`: the first max(tq, 0) to
   * training, up to max(vq, 0) more to validation, the rest to test.
   */
  function Share(n: nat, tq: int, vq: int, d: Destination): int {
    var t, v := Max(tq, 0), Max(vq, 0);
    match d
    case Dropped => 0
    case Training => Min(n, t)
    case Validation => Min(Max(n - t, 0), v)
    case Testing => n - Min(n, t) - Min(Max(n - t, 0), v)
  }

  function Max(a: int, b: int): int {
    if a >= b then a else b
  }

  /** The examples, in list order, whose destination is `d`. */
  function Select(keys: set<string>, tq: map<string, int>, vq: map<string, int>, items: seq<Example>, d: Destination): (r: seq<Example>)
    requires keys <= tq.Keys && keys <= vq.Keys
    ensures |r| <= |items|
    decreases |items|
  {
    if items == [] then []
    else
      var front := items[..|items| - 1];
      var item := items[|items| - 1];
      Select(keys, tq, vq, front, d) + (if DestinationOf(keys, tq, vq, front, item) == d then [item] else [])
  }

  /**
   * The quota counters of the loop after dealing `items`, in terms of the
   * number c of examples of the class dealt: the training counter has
   * max(tq - c, 0) positive slots left, the validation counter the slots
   * not yet used by the examples that came after training was full.
   */
  ghost predicate CountersAfter(st: Deal, keys: set<string>, tq: map<string, int>, vq: map<string, int>, items: seq<Example>)
    requires keys <= tq.Keys && keys <= vq.Keys && Covers(st, keys)
  {
    forall g :: g in keys ==> CountersLeft(st.trainLeft[g], st.validLeft[g], tq[g], vq[g], Count(items, g))
  }

  /** The counters of one class after `c` of its examples were dealt. */
  predicate CountersLeft(trainLeft: int, validLeft: int, tq: int, vq: int, c: nat) {
    && Max(trainLeft, 0) == Max(tq - c, 0)
    && Max(validLeft, 0) == Max(vq - Max(c - Max(tq, 0), 0), 0)
  }

  /**
   * One example of a class with counters that fit its rank `c`: the
   * counters pick the destination its rank names, and the decremented
   * counters fit rank c + 1.
   */
  lemma CountersStep(trainLeft: int, validLeft: int, tq: int, vq: int, c: nat)
    requires CountersLeft(trainLeft, validLeft, tq, vq, c)
    ensures var d := RankDestination(c, tq, vq);
      && (trainLeft > 0 <==> d == Training)
      && (trainLeft <= 0 && validLeft > 0 <==> d == Validation)
      && (d == Training ==> CountersLeft(trainLeft - 1, validLeft, tq, vq, c + 1))
      && (d == Validation ==> CountersLeft(trainLeft, validLeft - 1, tq, vq, c + 1))
      && (d == Testing ==> CountersLeft(trainLeft, validLeft, tq, vq, c + 1))
  {
  }

  /**
   * The loop deals by rank: starting from the quotas, after any prefix of
   * the list the three lists are exactly the examples whose rank sends
   * them there, in list order.
   */
  lemma {:induction false} DealAllByRank(keys: set<string>, tq: map<string, int>, vq: map<string, int>, items: seq<Example>)
    requires keys <= tq.Keys && keys <= vq.Keys
    ensures var end := DealAll(Deal([], [], [], tq, vq), keys, items);
      && CountersAfter(end, keys, tq, vq, items)
      && end.train == Select(keys, tq, vq, items, Training)
      && end.valid == Select(keys, tq, vq, items, Validation)
      && end.test == Select(keys, tq, vq, items, Testing)
    decreases |items|
  {
    if items != [] {
      var front := items[..|items| - 1];
      var item := items[|items| - 1];
      DealAllByRank(keys, tq, vq, front);
      var mid := DealAll(Deal([], [], [], tq, vq), keys, front);
      DealStep(mid, keys, tq, vq, front, item);
      assert items[..|items| - 1] + [item] == items by {
        FrontLast(items);
      }
    }
  }

  /** DealAllByRank for one more example. */
  lemma DealStep(mid: Deal, keys: set<string>, tq: map<string, int>, vq: map<string, int>, front: seq<Example>, item: Example)
    requires keys <= tq.Keys && keys <= vq.Keys && Covers(mid, keys)
    requires CountersAfter(mid, keys, tq, vq, front)
    ensures var next := DealOne(mid, keys, item);
      var d := DestinationOf(keys, tq, vq, front, item);
      && CountersAfter(next, keys, tq, vq, front + [item])
      && next.train == mid.train + (if d == Training then [item] else [])
      && next.valid == mid.valid + (if d == Validation then [item] else [])
      && next.test == mid.test + (if d == Testing then [item] else [])
  {
    var items := front + [item];
    assert items[..|items| - 1] == front;
    var next := DealOne(mid, keys, item);
    forall h | h in keys
      ensures CountersLeft(next.trainLeft[h], next.validLeft[h], tq[h], vq[h], Count(items, h))
    {
      assert Count(items, h) == Count(front, h) + (if item.gesture == h then 1 else 0);
      assert CountersLeft(mid.trainLeft[h], mid.validLeft[h], tq[h], vq[h], Count(front, h));
      if item.gesture == h {
        CountersStep(mid.trainLeft[h], mid.validLeft[h], tq[h], vq[h], Count(front, h));
      }
    }
    if item.gesture in keys {
      var g := item.gesture;
      CountersStep(mid.trainLeft[g], mid.validLeft[g], tq[g], vq[g], Count(front, g));
    }
  }

  /** Counting distributes over concatenation. */
  lemma {:induction false} CountAppend(a: seq<Example>, b: seq<Example>, g: string)
    ensures Count(a + b, g) == Count(a, g) + Count(b, g)
    decreases |b|
  {
    if b == [] {
      AppendEmpty(a, b);
    } else {
      FrontOfAppend(a, b);
      CountAppend(a, b[..|b| - 1], g);
    }
  }

  /**
   * How many examples of a class each list receives: the share of its
   * count that the ranks send there; classes outside the keys receive none.
   */
  lemma {:induction false} SelectCounts(keys: set<string>, tq: map<string, int>, vq: map<string, int>, items: seq<Example>, g: string, d: Destination)
    requires keys <= tq.Keys && keys <= vq.Keys && d != Dropped
    ensures Count(Select(keys, tq, vq, items, d), g) == if g in keys then Share(Count(items, g), tq[g], vq[g], d) else 0
    decreases |items|
  {
    if items != [] {
      var front := items[..|items| - 1];
      var item := items[|items| - 1];
      SelectCounts(keys, tq, vq, front, g, d);
      SelectCountsStep(keys, tq, vq, items, g, d);
    }
  }

  /** SelectCounts for one more example. */
  lemma SelectCountsStep(keys: set<string>, tq: map<string, int>, vq: map<string, int>, items: seq<Example>, g: string, d: Destination)
    requires keys <= tq.Keys && keys <= vq.Keys && d != Dropped && items != []
    requires var front := items[..|items| - 1];
      Count(Select(keys, tq, vq, front, d), g) == if g in keys then Share(Count(front, g), tq[g], vq[g], d) else 0
    ensures Count(Select(keys, tq, vq, items, d), g) == if g in keys then Share(Count(items, g), tq[g], vq[g], d) else 0
  {
    var front := items[..|items| - 1];
    var item := items[|items| - 1];
    SelectLast(keys, tq, vq, items, g, d);
    if g in keys && item.gesture == g {
      assert DestinationOf(keys, tq, vq, front, item) == RankDestination(Count(front, g), tq[g], vq[g]);
      ShareStep(Count(front, g), tq[g], vq[g], d);
    }
  }

  /** The last example adds one to the count of its class in the list it is sent to. */
  lemma SelectLast(keys: set<string>, tq: map<string, int>, vq: map<string, int>, items: seq<Example>, g: string, d: Destination)
    requires keys <= tq.Keys && keys <= vq.Keys && items != []
    ensures var front, item := items[..|items| - 1], items[|items| - 1];
      Count(Select(keys, tq, vq, items, d), g) ==
        Count(Select(keys, tq, vq, front, d), g) + (if item.gesture == g && DestinationOf(keys, tq, vq, front, item) == d then 1 else 0)
  {
    var front := items[..|items| - 1];
    var item := items[|items| - 1];
    var added := if DestinationOf(keys, tq, vq, front, item) == d then [item] else [];
    CountAppend(Select(keys, tq, vq, front, d), added, g);
    assert Count([item], g) == if item.gesture == g then 1 else 0 by {
      assert [item][..0] == [];
    }
  }

  /** One more rank adds one to the share of exactly the destination it is sent to. */
  lemma ShareStep(n: nat, tq: int, vq: int, d: Destination)
    ensures Share(n + 1, tq, vq, d) == Share(n, tq, vq, d) + (if RankDestination(n, tq, vq) == d then 1 else 0)
  {
  }

  function Min(a: int, b: int): int {
    if a <= b then a else b
  }

  /** The examples of the given classes, in list order. */
  function Kept(keys: set<string>, items: seq<Example>): (r: seq<Example>)
    ensures forall k :: 0 <= k < |r| ==> r[k].gesture in keys
    decreases |items|
  {
    if items == [] then []
    else Kept(keys, items[..|items| - 1]) + (if items[|items| - 1].gesture in keys then [items[|items| - 1]] else [])
  }

  /** The three lists together hold every kept example exactly once. */
  lemma {:induction false} SelectPartitions(keys: set<string>, tq: map<string, int>, vq: map<string, int>, items: seq<Example>)
    requires keys <= tq.Keys && keys <= vq.Keys
    ensures multiset(Select(keys, tq, vq, items, Training)) + multiset(Select(keys, tq, vq, items, Validation)) +
      multiset(Select(keys, tq, vq, items, Testing)) == multiset(Kept(keys, items))
    decreases |items|
  {
    if items != [] {
      SelectPartitions(keys, tq, vq, items[..|items| - 1]);
    }
  }

  /** `a` is `b` with some elements left out, the rest in their order. */
  ghost predicate Subsequence(a: seq<Example>, b: seq<Example>)
    decreases |b|
  {
    if a == [] then true
    else if b == [] then false
    else if a[|a| - 1] == b[|b| - 1] && Subsequence(a[..|a| - 1], b[..|b| - 1]) then true
    else Subsequence(a, b[..|b| - 1])
  }

  /** Each list keeps the relative order of the shuffled input. */
  lemma {:induction false} SelectKeepsOrder(keys: set<string>, tq: map<string, int>, vq: map<string, int>, items: seq<Example>, d: Destination)
    requires keys <= tq.Keys && keys <= vq.Keys
    ensures Subsequence(Select(keys, tq, vq, items, d), items)
    decreases |items|
  {
    if items != [] {
      var front := items[..|items| - 1];
      var item := items[|items| - 1];
      var sel := Select(keys, tq, vq, items, d);
      SelectKeepsOrder(keys, tq, vq, front, d);
      if DestinationOf(keys, tq, vq, front, item) == d {
        assert sel[..|sel| - 1] == Select(keys, tq, vq, front, d);
      } else {
        AppendEmpty(Select(keys, tq, vq, front, d), []);
        if sel != [] {
          assert Subsequence(sel, items);
        }
      }
    }
  }

  /** split_data's three lists are the examples its ranks send to each. */
  lemma SplitDataSelects(items: seq<Example>, trainRatio: real, validRatio: real, gestures: seq<string>)
    requires |gestures| >= Classes
    ensures var keys := Keys(gestures).value;
      var tq, vq := Quotas(keys, trainRatio, items), Quotas(keys, validRatio, items);
      SplitData(items, trainRatio, validRatio, gestures).value ==
        (Select(keys, tq, vq, items, Training), Select(keys, tq, vq, items, Validation), Select(keys, tq, vq, items, Testing))
  {
    var keys := Keys(gestures).value;
    var tq, vq := Quotas(keys, trainRatio, items), Quotas(keys, validRatio, items);
    DealAllByRank(keys, tq, vq, items);
  }

  /**
   * split_data's three lists partition the examples of the four classes,
   * each in the shuffled order; examples of other classes are dropped.
   */
  lemma SplitDataPartitions(items: seq<Example>, trainRatio: real, validRatio: real, gestures: seq<string>)
    requires |gestures| >= Classes
    ensures var r := SplitData(items, trainRatio, validRatio, gestures).value;
      && multiset(r.0) + multiset(r.1) + multiset(r.2) == multiset(Kept(Keys(gestures).value, items))
      && Subsequence(r.0, items) && Subsequence(r.1, items) && Subsequence(r.2, items)
  {
    var keys := Keys(gestures).value;
    var tq, vq := Quotas(keys, trainRatio, items), Quotas(keys, validRatio, items);
    SplitDataSelects(items, trainRatio, validRatio, gestures);
    SelectPartitions(keys, tq, vq, items);
    SelectKeepsOrder(keys, tq, vq, items, Training);
    SelectKeepsOrder(keys, tq, vq, items, Validation);
    SelectKeepsOrder(keys, tq, vq, items, Testing);
  }

  /**
   * A class of n examples contributes min(n, max(tq, 0)) to training, up
   * to max(vq, 0) of the rest to validation and the remainder to test,
   * with tq = int(train_ratio * n) and vq = int(valid_ratio * n); a class
   * outside the four contributes nothing.
   */
  lemma SplitDataCounts(items: seq<Example>, trainRatio: real, validRatio: real, gestures: seq<string>, g: string)
    requires |gestures| >= Classes
    ensures var r := SplitData(items, trainRatio, validRatio, gestures).value;
      && (g !in Keys(gestures).value ==> Count(r.0, g) == 0 && Count(r.1, g) == 0 && Count(r.2, g) == 0)
      && (g in Keys(gestures).value ==>
        var n := Count(items, g);
        var t, v := Max(Quota(trainRatio, n), 0), Max(Quota(validRatio, n), 0);
        && Count(r.0, g) == Min(n, t)
        && Count(r.1, g) == Min(Max(n - t, 0), v)
        && Count(r.2, g) == n - Min(n, t) - Min(Max(n - t, 0), v))
  {
    var keys := Keys(gestures).value;
    var tq, vq := Quotas(keys, trainRatio, items), Quotas(keys, validRatio, items);
    SplitDataSelects(items, trainRatio, validRatio, gestures);
    var r := SplitData(items, trainRatio, validRatio, gestures).value;
    assert r == (Select(keys, tq, vq, items, Training), Select(keys, tq, vq, items, Validation), Select(keys, tq, vq, items, Testing));
    if g in keys {
      var n := Count(items, g);
      SelectShares(keys, tq, vq, items, g, Quota(trainRatio, n), Quota(validRatio, n));
    } else {
      SelectCounts(keys, tq, vq, items, g, Training);
      SelectCounts(keys, tq, vq, items, g, Validation);
      SelectCounts(keys, tq, vq, items, g, Testing);
    }
  }

  /** SelectCounts for the three lists of a class with quotas `trainQuota` and `validQuota`. */
  lemma SelectShares(keys: set<string>, tq: map<string, int>, vq: map<string, int>, items: seq<Example>, g: string,
                     trainQuota: int, validQuota: int)
    requires keys <= tq.Keys && keys <= vq.Keys && g in keys
    requires tq[g] == trainQuota && vq[g] == validQuota
    ensures var n, t, v := Count(items, g), Max(trainQuota, 0), Max(validQuota, 0);
      && Count(Select(keys, tq, vq, items, Training), g) == Min(n, t)
      && Count(Select(keys, tq, vq, items, Validation), g) == Min(Max(n - t, 0), v)
      && Count(Select(keys, tq, vq, items, Testing), g) == n - Min(n, t) - Min(Max(n - t, 0), v)
  {
    SelectCounts(keys, tq, vq, items, g, Training);
    SelectCounts(keys, tq, vq, items, g, Validation);
    SelectCounts(keys, tq, vq, items, g, Testing);
  }

  /**
   * With the ratios data_prepare passes, 0.6 and 0.2, a class of n
   * examples gives int(0.6 n) to training, int(0.2 n) to validation and
   * the remaining n - int(0.6 n) - int(0.2 n) to test.
   */
  lemma DefaultRatios(n: nat)
    ensures var t, v := Quota(0.6, n), Quota(0.2, n);
      && Min(n, Max(t, 0)) == t
      && Min(Max(n - t, 0), Max(v, 0)) == v
      && t + v <= n
  {
    var t, v := Quota(0.6, n), Quota(0.2, n);
    QuotaBounds(0.6, n);
    QuotaBounds(0.2, n);
    assert (t + v) as real <= 0.8 * n as real;
  }
}
