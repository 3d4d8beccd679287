/** The maximal runs of equal values in a mask. */
module MaskRuns {
  import opened Arithmetic

  /** Lengths of the maximal runs, in order. */
  function Runs(mask: seq<bool>): (runs: seq<nat>)
    ensures mask != [] ==> runs != []
  {
    var n := |mask|;
    if n == 0 then []
    else if n == 1 then [1]
    else
      var r := Runs(mask[..n - 1]);
      if mask[n - 1] == mask[n - 2] then Grow(r) else r + [1]
  }

  /** One more element in the last run. */
  function Grow(runs: seq<nat>): (r: seq<nat>)
    requires runs != []
    ensures |r| == |runs|
  {
    runs[..|runs| - 1] + [runs[|runs| - 1] + 1]
  }

  function Longest(runs: seq<nat>): nat {
    if runs == [] then 0 else Max(Longest(runs[..|runs| - 1]), runs[|runs| - 1])
  }

  function Max(a: nat, b: nat): nat {
    if a < b then b else a
  }

  predicate Positive(runs: seq<nat>) {
    forall j :: 0 <= j < |runs| ==> runs[j] >= 1
  }

  /** Runs alternate, beginning with `start`. */
  function Sign(start: bool, j: nat): bool {
    if j % 2 == 0 then start else !start
  }

  lemma SignFlips(start: bool, j: nat)
    ensures Sign(start, j + 1) == !Sign(start, j)
  {
  }

  /** The mask that starts with `start` and has the given alternating runs. */
  function Expand(start: bool, runs: seq<nat>): seq<bool>
  {
    if runs == [] then []
    else
      var n := |runs| - 1;
      Expand(start, runs[..n]) + Repeat(Sign(start, n), runs[n])
  }

  function Repeat(v: bool, k: nat): (s: seq<bool>)
    ensures |s| == k && forall i :: 0 <= i < k ==> s[i] == v
  {
    if k == 0 then [] else Repeat(v, k - 1) + [v]
  }

  lemma {:induction false} LongestBounds(runs: seq<nat>, j: nat)
    requires j < |runs|
    ensures runs[j] <= Longest(runs)
    decreases |runs|
  {
    if j < |runs| - 1 {
      LongestBounds(runs[..|runs| - 1], j);
    }
  }

  lemma {:induction false} LongestIsRun(runs: seq<nat>) returns (j: nat)
    requires runs != []
    ensures j < |runs| && runs[j] == Longest(runs)
    decreases |runs|
  {
    var n := |runs| - 1;
    if n == 0 || Longest(runs[..n]) < runs[n] {
      j := n;
    } else {
      j := LongestIsRun(runs[..n]);
    }
  }

  lemma {:induction false} SumPrefix(runs: seq<nat>, j: nat)
    requires j <= |runs|
    ensures Sum(runs[..j]) <= Sum(runs)
    ensures j < |runs| ==> Sum(runs[..j + 1]) == Sum(runs[..j]) + runs[j]
    decreases |runs| - j
  {
    if j < |runs| {
      assert runs[..j + 1][..j] == runs[..j];
      SumPrefix(runs, j + 1);
    } else {
      assert runs[..j] == runs;
    }
  }

  lemma {:induction false} LongestAtMostSum(runs: seq<nat>)
    ensures Longest(runs) <= Sum(runs)
    decreases |runs|
  {
    if runs != [] {
      LongestAtMostSum(runs[..|runs| - 1]);
    }
  }

  lemma GrowSnoc(runs: seq<nat>, k: nat)
    ensures Grow(runs + [k]) == runs + [k + 1]
  {
  }

  lemma {:induction false} ExpandLength(start: bool, runs: seq<nat>)
    ensures |Expand(start, runs)| == Sum(runs)
    decreases |runs|
  {
    if runs != [] {
      ExpandLength(start, runs[..|runs| - 1]);
    }
  }

  lemma ExpandUnfold(start: bool, init: seq<nat>, k: nat)
    ensures Expand(start, init + [k]) == Expand(start, init) + Repeat(Sign(start, |init|), k)
    ensures Sum(init + [k]) == Sum(init) + k
  {
    assert (init + [k])[..|init|] == init;
  }

  /** Adding an element to the last run appends one more of its value. */
  lemma ExpandGrow(start: bool, init: seq<nat>, k: nat)
    ensures Expand(start, init + [k + 1]) == Expand(start, init + [k]) + [Sign(start, |init|)]
  {
    ExpandUnfold(start, init, k);
    ExpandUnfold(start, init, k + 1);
    var v := Sign(start, |init|);
    assert Expand(start, init) + (Repeat(v, k) + [v]) == Expand(start, init) + Repeat(v, k) + [v];
  }

  /** Opening a run appends the other value. */
  lemma ExpandOpen(start: bool, runs: seq<nat>)
    ensures Expand(start, runs + [1]) == Expand(start, runs) + [Sign(start, |runs|)]
  {
    ExpandUnfold(start, runs, 1);
    assert Repeat(Sign(start, |runs|), 1) == [Sign(start, |runs|)];
  }

  /** `runs` are positive, alternating and expand to `mask`. */
  ghost predicate Describes(mask: seq<bool>, runs: seq<nat>) {
    && mask != [] && runs != [] && Positive(runs)
    && Expand(mask[0], runs) == mask
    && mask[|mask| - 1] == Sign(mask[0], |runs| - 1)
  }

  lemma DescribesGrow(mask: seq<bool>, runs: seq<nat>)
    requires Describes(mask, runs)
    ensures Describes(mask + [mask[|mask| - 1]], Grow(runs))
  {
    var init, k := runs[..|runs| - 1], runs[|runs| - 1];
    assert runs == init + [k];
    ExpandGrow(mask[0], init, k);
  }

  lemma DescribesOpen(mask: seq<bool>, runs: seq<nat>)
    requires Describes(mask, runs)
    ensures Describes(mask + [!mask[|mask| - 1]], runs + [1])
  {
    hide Repeat, Expand, Sign;
    SignFlips(mask[0], |runs| - 1);
    ExpandOpen(mask[0], runs);
  }

  /** Expanding the runs of a mask gives the mask back. */
  lemma {:induction false} RunsDescribe(mask: seq<bool>)
    requires mask != []
    ensures Describes(mask, Runs(mask))
    decreases |mask|
  {
    var n := |mask|;
    if n == 1 {
      ExpandUnfold(mask[0], [], 1);
      assert [] + [1] == [1] && Repeat(mask[0], 1) == [mask[0]];
    } else {
      var init, v := mask[..n - 1], mask[n - 1];
      assert mask == init + [v];
      RunsSnoc(init, v);
      hide Runs, Describes, Grow;
      RunsDescribe(init);
      if v == init[n - 2] {
        DescribesGrow(init, Runs(init));
      } else {
        DescribesOpen(init, Runs(init));
      }
    }
  }

  lemma RunsPositive(mask: seq<bool>)
    ensures Positive(Runs(mask))
  {
    if mask != [] {
      RunsDescribe(mask);
    }
  }

  lemma RunsSum(mask: seq<bool>)
    requires mask != []
    ensures Sum(Runs(mask)) == |mask|
  {
    RunsDescribe(mask);
    ExpandLength(mask[0], Runs(mask));
  }

  lemma RunsSnoc(mask: seq<bool>, v: bool)
    requires mask != []
    ensures Runs(mask + [v]) == if v == mask[|mask| - 1] then Grow(Runs(mask)) else Runs(mask) + [1]
  {
    hide Grow;
    var m := mask + [v];
    assert m[..|m| - 1] == mask && m[|m| - 1] == v && m[|m| - 2] == mask[|mask| - 1];
  }

  lemma RepeatSnoc(mask: seq<bool>, v: bool, k: nat)
    ensures mask + Repeat(v, k + 1) == mask + Repeat(v, k) + [v]
    ensures k >= 1 ==> (mask + Repeat(v, k))[|mask + Repeat(v, k)| - 1] == v
  {
    assert Repeat(v, k + 1) == Repeat(v, k) + [v];
  }

  lemma RunsLonger(mask: seq<bool>, runs: seq<nat>, k: nat)
    requires mask != [] && Runs(mask) == runs + [k]
    ensures Runs(mask + [mask[|mask| - 1]]) == runs + [k + 1]
  {
    RunsSnoc(mask, mask[|mask| - 1]);
    GrowSnoc(runs, k);
  }

  /** Appending `k + 1` copies of the other value opens a run of length `k + 1`. */
  lemma {:induction false} RunsAppend(mask: seq<bool>, v: bool, k: nat)
    requires mask != [] && v != mask[|mask| - 1]
    ensures Runs(mask + Repeat(v, k + 1)) == Runs(mask) + [k + 1]
    decreases k
  {
    RepeatSnoc(mask, v, k);
    if k == 0 {
      assert mask + Repeat(v, 0) == mask;
      RunsSnoc(mask, v);
    } else {
      RunsAppend(mask, v, k - 1);
      hide Runs, Repeat;
      RunsLonger(mask + Repeat(v, k), Runs(mask), k);
    }
  }

  lemma {:induction false} RunsOfOne(v: bool, k: nat)
    requires k >= 1
    ensures Runs(Repeat(v, k)) == [k]
    decreases k
  {
    if k > 1 {
      RunsOfOne(v, k - 1);
      RunsSnoc(Repeat(v, k - 1), v);
      hide Runs;
    } else {
      assert Repeat(v, 0) + [v] == [v];
    }
  }

  lemma ExpandFirst(start: bool, k: nat)
    requires k >= 1
    ensures Expand(start, [k]) == Repeat(start, k)
    ensures Describes(Expand(start, [k]), [k]) && Runs(Expand(start, [k])) == [k]
  {
    ExpandUnfold(start, [], k);
    assert [] + [k] == [k];
    RunsOfOne(start, k);
  }

  lemma ExpandMore(start: bool, init: seq<nat>, k: nat)
    requires k >= 1 && Describes(Expand(start, init), init) && Expand(start, init)[0] == start
    ensures Describes(Expand(start, init + [k]), init + [k]) && Expand(start, init + [k])[0] == start
    ensures Runs(Expand(start, init + [k])) == Runs(Expand(start, init)) + [k]
  {
    hide Runs, Expand, Sum;
    SignFlips(start, |init| - 1);
    ExpandUnfold(start, init, k);
    RunsAppend(Expand(start, init), Sign(start, |init|), k - 1);
  }

  /** Conversely, the runs of a mask are the only lengths that describe it. */
  lemma {:induction false} RunsExpand(start: bool, runs: seq<nat>)
    requires runs != [] && Positive(runs)
    ensures Describes(Expand(start, runs), runs) && Expand(start, runs)[0] == start
    ensures Runs(Expand(start, runs)) == runs
    decreases |runs|
  {
    var n := |runs| - 1;
    var init, k := runs[..n], runs[n];
    assert runs == init + [k];
    if n == 0 {
      ExpandFirst(start, k);
    } else {
      hide Runs, Describes;
      RunsExpand(start, init);
      ExpandMore(start, init, k);
    }
  }

  lemma {:induction false} ExpandAt(start: bool, runs: seq<nat>, j: nat, i: nat)
    requires j < |runs| && Sum(runs[..j]) <= i < Sum(runs[..j + 1]) <= Sum(runs)
    ensures i < |Expand(start, runs)| && Expand(start, runs)[i] == Sign(start, j)
    decreases |runs|
  {
    ExpandLength(start, runs);
    ExpandLength(start, runs[..|runs| - 1]);
    var n := |runs| - 1;
    if j < n {
      assert runs[..n][..j] == runs[..j] && runs[..n][..j + 1] == runs[..j + 1];
      SumPrefix(runs[..n], j + 1);
      ExpandAt(start, runs[..n], j, i);
    } else {
      assert runs[..j + 1] == runs;
    }
  }

  /** Every position of the mask lying in run `j` holds that run's value. */
  lemma MaskInRun(mask: seq<bool>, j: nat, i: nat)
    requires mask != [] && j < |Runs(mask)|
    requires Sum(Runs(mask)[..j]) <= i < Sum(Runs(mask)[..j + 1])
    ensures i < |mask| && mask[i] == Sign(mask[0], j)
  {
    RunsDescribe(mask);
    RunsSum(mask);
    SumPrefix(Runs(mask), j + 1);
    ExpandAt(mask[0], Runs(mask), j, i);
  }
}
