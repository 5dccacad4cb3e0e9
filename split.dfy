/**
 * Splitting a projection histogram into runs. A position is active when its
 * value exceeds `minValue`; two consecutive active positions further apart
 * than `minGap` end one run and start the next. Runs are returned as
 * half-open bounds `(starts, ends)`, or `None` when nothing is active.
 */
module ProfileSplit {
  import opened Wrappers

  /** `np.where(values > threshold)[0]`, restricted to positions from `from` on. */
  function WhereFrom(values: seq<int>, threshold: int, from: nat): (ix: seq<nat>)
    requires from <= |values|
    ensures |ix| <= |values| - from
    decreases |values| - from
  {
    if from == |values| then []
    else (if values[from] > threshold then [from] else []) + WhereFrom(values, threshold, from + 1)
  }

  /** `np.where(values > threshold)[0]`: every position above the threshold, ascending. */
  function Where(values: seq<int>, threshold: int): (ix: seq<nat>)
    ensures |ix| <= |values|
  {
    WhereFrom(values, threshold, 0)
  }

  /** The positions `ix` ascend, and each lies from `from` on and above the threshold. */
  predicate Found(values: seq<int>, threshold: int, from: nat, ix: seq<nat>)
  {
    (forall j :: 0 <= j < |ix| ==> from <= ix[j] < |values| && values[ix[j]] > threshold) &&
    (forall i, j :: 0 <= i < j < |ix| ==> ix[i] < ix[j])
  }

  /** Every position found from `from` on lies above the threshold, and they ascend. */
  lemma {:induction false} WhereFromSound(values: seq<int>, threshold: int, from: nat)
    requires from <= |values|
    ensures Found(values, threshold, from, WhereFrom(values, threshold, from))
    decreases |values| - from
  {
    if from < |values| {
      WhereFromSound(values, threshold, from + 1);
    }
  }

  /** Every position found lies above the threshold, and they ascend. */
  lemma WhereSound(values: seq<int>, threshold: int)
    ensures Found(values, threshold, 0, Where(values, threshold))
  {
    WhereFromSound(values, threshold, 0);
  }

  /** Every position from `from` on above the threshold is found. */
  lemma {:induction false} WhereFromComplete(values: seq<int>, threshold: int, from: nat)
    requires from <= |values|
    ensures forall p :: from <= p < |values| && values[p] > threshold ==> p in WhereFrom(values, threshold, from)
    decreases |values| - from
  {
    if from < |values| {
      WhereFromComplete(values, threshold, from + 1);
    }
  }

  /** Every position above the threshold is found. */
  lemma WhereComplete(values: seq<int>, threshold: int)
    ensures forall p :: 0 <= p < |values| && values[p] > threshold ==> p in Where(values, threshold)
  {
    WhereFromComplete(values, threshold, 0);
  }

  /** `ix[1:] - ix[0:-1]`. */
  function Diffs(ix: seq<int>): (d: seq<int>)
    ensures |d| == if |ix| == 0 then 0 else |ix| - 1
    ensures forall j :: 0 <= j < |d| ==> d[j] == ix[j + 1] - ix[j]
  {
    if |ix| == 0 then [] else seq(|ix| - 1, j requires 0 <= j < |ix| - 1 => ix[j + 1] - ix[j])
  }

  predicate Active(values: seq<int>, minValue: int, p: int)
  {
    0 <= p < |values| && values[p] > minValue
  }

  /**
   * The active positions `ix`; the indices `cuts` into `ix` after which the
   * next active position is more than `minGap` away; the run starts (the
   * first active position and each position just after a cut) and the run
   * ends (each position at a cut and the last active position, plus one).
   */
  function SplitProjectionProfile(values: seq<int>, minValue: int, minGap: int): (r: Option<(seq<int>, seq<int>)>)
    ensures r.None? <==> forall p :: 0 <= p < |values| ==> values[p] <= minValue
  {
    WhereComplete(values, minValue);
    WhereSound(values, minValue);
    var ix := Where(values, minValue);
    if |ix| == 0 then
      None
    else
      assert values[ix[0]] > minValue;
      WhereSound(Diffs(ix), minGap);
      var cuts := Where(Diffs(ix), minGap);
      Some((RunStarts(ix, cuts), RunEnds(ix, cuts)))
  }

  predicate CutsOf(ix: seq<nat>, cuts: seq<nat>)
  {
    |ix| > 0 && forall m :: 0 <= m < |cuts| ==> cuts[m] < |ix| - 1
  }

  /** `np.insert(ix[cuts + 1], 0, ix[0])`. */
  function RunStarts(ix: seq<nat>, cuts: seq<nat>): (starts: seq<int>)
    requires CutsOf(ix, cuts)
    ensures |starts| == |cuts| + 1
    ensures forall k :: 0 <= k <= |cuts| ==> starts[k] == ix[Lo(cuts, k)]
  {
    var gapEnd := seq(|cuts|, k requires 0 <= k < |cuts| => ix[cuts[k] + 1]);
    [ix[0]] + gapEnd
  }

  /** `np.append(ix[cuts], ix[-1]) + 1`. */
  function RunEnds(ix: seq<nat>, cuts: seq<nat>): (ends: seq<int>)
    requires CutsOf(ix, cuts)
    ensures |ends| == |cuts| + 1
    ensures forall k :: 0 <= k <= |cuts| ==> ends[k] == ix[Hi(|ix|, cuts, k)] + 1
  {
    var gapStart := seq(|cuts|, k requires 0 <= k < |cuts| => ix[cuts[k]]);
    var lasts := gapStart + [ix[|ix| - 1]];
    seq(|lasts|, k requires 0 <= k < |lasts| => lasts[k] + 1)
  }

  // ---------------------------------------------------------------------
  // Runs in terms of the active positions. Run k covers the active
  // positions ix[Lo(k)] .. ix[Hi(k)].

  function Lo(cuts: seq<nat>, k: nat): int
    requires k <= |cuts|
  {
    if k == 0 then 0 else cuts[k - 1] + 1
  }

  function Hi(n: nat, cuts: seq<nat>, k: nat): int
    requires k <= |cuts|
  {
    if k == |cuts| then n - 1 else cuts[k]
  }

  /** The active positions, ascending, and nothing else. */
  ghost predicate ActiveIndex(values: seq<int>, minValue: int, ix: seq<nat>)
  {
    (forall j :: 0 <= j < |ix| ==> Active(values, minValue, ix[j])) &&
    (forall i, j :: 0 <= i < j < |ix| ==> ix[i] < ix[j]) &&
    (forall p :: Active(values, minValue, p) ==> p in ix)
  }

  predicate SortedCuts(n: nat, cuts: seq<nat>)
  {
    (forall i, l :: 0 <= i < l < |cuts| ==> cuts[i] < cuts[l]) &&
    (forall m :: 0 <= m < |cuts| ==> cuts[m] < n - 1)
  }

  /** The cut indices, ascending: exactly those after which the next active position is more than `minGap` away. */
  ghost predicate CutIndex(ix: seq<nat>, minGap: int, cuts: seq<nat>)
  {
    |ix| > 0 && SortedCuts(|ix|, cuts) &&
    (forall m :: 0 <= m < |cuts| ==> Gap(ix, cuts[m]) > minGap) &&
    (forall j :: 0 <= j < |ix| - 1 && Gap(ix, j) > minGap ==> j in cuts)
  }

  /** The distance from active position j to the next one. */
  function Gap(ix: seq<nat>, j: int): int
    requires 0 <= j < |ix| - 1
  {
    ix[j + 1] as int - ix[j] as int
  }

  /** The pieces of a non-empty split: run k covers the active positions ix[Lo(k)] .. ix[Hi(k)]. */
  ghost predicate Runs(values: seq<int>, minValue: int, minGap: int, ix: seq<nat>, cuts: seq<nat>,
                 starts: seq<int>, ends: seq<int>)
  {
    ActiveIndex(values, minValue, ix) && CutIndex(ix, minGap, cuts) && CutsOf(ix, cuts) &&
    starts == RunStarts(ix, cuts) && ends == RunEnds(ix, cuts)
  }

  lemma SplitParts(values: seq<int>, minValue: int, minGap: int, starts: seq<int>, ends: seq<int>)
    returns (ix: seq<nat>, cuts: seq<nat>)
    requires SplitProjectionProfile(values, minValue, minGap) == Some((starts, ends))
    ensures ix == Where(values, minValue)
    ensures Runs(values, minValue, minGap, ix, cuts, starts, ends)
    ensures |starts| == |ends| == |cuts| + 1
  {
    ix := Where(values, minValue);
    cuts := Where(Diffs(ix), minGap);
    WhereActive(values, minValue);
    WhereCuts(ix, minGap);
  }

  lemma WhereActive(values: seq<int>, minValue: int)
    ensures ActiveIndex(values, minValue, Where(values, minValue))
  {
    var ix := Where(values, minValue);
    WhereComplete(values, minValue);
    WhereSound(values, minValue);
    forall j | 0 <= j < |ix| ensures Active(values, minValue, ix[j]) {
    }
    forall p | Active(values, minValue, p) ensures p in ix {
    }
  }

  lemma WhereCuts(ix: seq<nat>, minGap: int)
    requires |ix| > 0
    ensures SortedCuts(|ix|, Where(Diffs(ix), minGap))
    ensures CutIndex(ix, minGap, Where(Diffs(ix), minGap))
  {
    var d := Diffs(ix);
    var cuts := Where(d, minGap);
    WhereComplete(d, minGap);
    WhereSound(d, minGap);
    forall m | 0 <= m < |cuts| ensures Gap(ix, cuts[m]) > minGap {
      assert d[cuts[m]] > minGap;
    }
    forall j | 0 <= j < |ix| - 1 && Gap(ix, j) > minGap ensures j in cuts {
      assert d[j] > minGap;
    }
  }

  /** Every run has bounds inside the active positions, and run k ends before run l begins. */
  lemma LoHi(n: nat, cuts: seq<nat>, k: int, l: int)
    requires SortedCuts(n, cuts) && n > 0
    requires 0 <= k <= l <= |cuts|
    ensures 0 <= Lo(cuts, k) <= Hi(n, cuts, k) < n
    ensures k < l ==> Hi(n, cuts, k) < Lo(cuts, l)
  {
    if 0 < k < |cuts| {
      assert cuts[k - 1] < cuts[k];
    }
    if k < l && l - 1 > k {
      assert cuts[k] < cuts[l - 1];
    }
  }

  lemma IndexOrder(ix: seq<nat>, a: int, b: int)
    requires forall i, j :: 0 <= i < j < |ix| ==> ix[i] < ix[j]
    requires 0 <= a < |ix| && 0 <= b < |ix|
    ensures ix[a] < ix[b] <==> a < b
    ensures ix[a] <= ix[b] <==> a <= b
  {
  }

  /** Every index into the active positions falls between the bounds of one run. */
  lemma {:induction false} FindRun(n: nat, cuts: seq<nat>, j: nat) returns (k: nat)
    requires SortedCuts(n, cuts)
    requires j < n
    ensures k <= |cuts| && Lo(cuts, k) <= j <= Hi(n, cuts, k)
  {
    if j == 0 {
      k := 0;
      return;
    }
    k := FindRun(n, cuts, j - 1);
    if j > Hi(n, cuts, k) {
      assert k < |cuts| && cuts[k] == j - 1;
      if k + 1 < |cuts| {
        assert cuts[k] < cuts[k + 1];
      }
      k := k + 1;
    }
  }

  /** Inside a run no two consecutive active positions are cut apart. */
  lemma NoCutInsideRun(ix: seq<nat>, cuts: seq<nat>, minGap: int, k: nat, j: int)
    requires CutIndex(ix, minGap, cuts)
    requires k <= |cuts| && Lo(cuts, k) <= j < Hi(|ix|, cuts, k)
    ensures 0 <= j < |ix| - 1 && ix[j + 1] - ix[j] <= minGap
  {
    if k > 0 { assert cuts[k - 1] < |ix| - 1; }
    forall m | 0 <= m < |cuts| ensures cuts[m] != j {
      if m < k - 1 {
        assert cuts[m] < cuts[k - 1];
      } else if m > k {
        assert cuts[k] < cuts[m];
      }
    }
    assert j !in cuts;
  }

  // ---------------------------------------------------------------------
  // One run, or one pair of runs, at a time.

  lemma RunAt(values: seq<int>, minValue: int, minGap: int, ix: seq<nat>, cuts: seq<nat>,
              starts: seq<int>, ends: seq<int>, k: int)
    requires Runs(values, minValue, minGap, ix, cuts, starts, ends)
    requires 0 <= k < |starts|
    ensures |starts| == |ends|
    ensures 0 <= starts[k] < ends[k] <= |values|
    ensures Active(values, minValue, starts[k]) && Active(values, minValue, ends[k] - 1)
  {
    LoHi(|ix|, cuts, k, k);
    IndexOrder(ix, Lo(cuts, k), Hi(|ix|, cuts, k));
  }

  lemma RunsApart(values: seq<int>, minValue: int, minGap: int, ix: seq<nat>, cuts: seq<nat>,
                  starts: seq<int>, ends: seq<int>, k: int, l: int)
    requires Runs(values, minValue, minGap, ix, cuts, starts, ends)
    requires 0 <= k < l < |starts|
    ensures |starts| == |ends|
    ensures ends[k] <= starts[l] && starts[k] < starts[l] && ends[k] < ends[l]
  {
    var n := |ix|;
    LoHi(n, cuts, k, l);
    LoHi(n, cuts, k, k);
    LoHi(n, cuts, l, l);
    IndexOrder(ix, Hi(n, cuts, k), Lo(cuts, l));
    IndexOrder(ix, Lo(cuts, k), Lo(cuts, l));
    IndexOrder(ix, Hi(n, cuts, k), Hi(n, cuts, l));
  }

  lemma RunOfActive(values: seq<int>, minValue: int, minGap: int, ix: seq<nat>, cuts: seq<nat>,
                    starts: seq<int>, ends: seq<int>, p: int)
    returns (k: nat)
    requires Runs(values, minValue, minGap, ix, cuts, starts, ends)
    requires Active(values, minValue, p)
    ensures k < |starts| == |ends| && starts[k] <= p < ends[k]
  {
    var n := |ix|;
    assert p in ix;
    var j :| 0 <= j < n && ix[j] == p;
    k := FindRun(n, cuts, j);
    LoHi(n, cuts, k, k);
    IndexOrder(ix, Lo(cuts, k), j);
    IndexOrder(ix, j, Hi(n, cuts, k));
  }

  lemma OutsideRuns(values: seq<int>, minValue: int, minGap: int, ix: seq<nat>, cuts: seq<nat>,
                    starts: seq<int>, ends: seq<int>, p: int)
    requires Runs(values, minValue, minGap, ix, cuts, starts, ends)
    requires p < starts[0] || ends[|ends| - 1] <= p
    ensures !Active(values, minValue, p)
  {
    if Active(values, minValue, p) {
      var k := RunOfActive(values, minValue, minGap, ix, cuts, starts, ends, p);
      if 0 < k { RunsApart(values, minValue, minGap, ix, cuts, starts, ends, 0, k); }
      if k < |starts| - 1 { RunsApart(values, minValue, minGap, ix, cuts, starts, ends, k, |starts| - 1); }
    }
  }

  lemma ConsecutiveInRun(values: seq<int>, minValue: int, minGap: int, ix: seq<nat>, cuts: seq<nat>,
                         starts: seq<int>, ends: seq<int>, k: int, j: int)
    requires Runs(values, minValue, minGap, ix, cuts, starts, ends)
    requires 0 <= k < |starts| && 0 <= j < |ix| - 1
    requires starts[k] <= ix[j] && ix[j + 1] < ends[k]
    ensures ix[j + 1] - ix[j] <= minGap
  {
    var n := |ix|;
    LoHi(n, cuts, k, k);
    IndexOrder(ix, Lo(cuts, k), j);
    IndexOrder(ix, j + 1, Hi(n, cuts, k));
    NoCutInsideRun(ix, cuts, minGap, k, j);
  }

  lemma GapAfterRun(values: seq<int>, minValue: int, minGap: int, ix: seq<nat>, cuts: seq<nat>,
                    starts: seq<int>, ends: seq<int>, k: int)
    requires Runs(values, minValue, minGap, ix, cuts, starts, ends)
    requires 0 <= k < |starts| - 1
    ensures |starts| == |ends|
    ensures starts[k + 1] - (ends[k] - 1) > minGap
  {
    assert starts[k + 1] == ix[cuts[k] + 1] && ends[k] == ix[cuts[k]] + 1;
  }

  lemma InactiveBetweenRuns(values: seq<int>, minValue: int, minGap: int, ix: seq<nat>, cuts: seq<nat>,
                            starts: seq<int>, ends: seq<int>, k: int, p: int)
    requires Runs(values, minValue, minGap, ix, cuts, starts, ends)
    requires 0 <= k < |starts| - 1 && ends[k] <= p < starts[k + 1]
    ensures !Active(values, minValue, p)
  {
    if Active(values, minValue, p) {
      var l := RunOfActive(values, minValue, minGap, ix, cuts, starts, ends, p);
      if l < k { RunsApart(values, minValue, minGap, ix, cuts, starts, ends, l, k); }
      if l > k + 1 { RunsApart(values, minValue, minGap, ix, cuts, starts, ends, k + 1, l); }
    }
  }

  /** With `minGap` at most 1 the active positions of a run are consecutive integers. */
  lemma {:induction false} SolidStep(ix: seq<nat>, cuts: seq<nat>, minGap: int, k: nat, j: int)
    requires minGap <= 1
    requires (forall a, b :: 0 <= a < b < |ix| ==> ix[a] < ix[b]) && CutIndex(ix, minGap, cuts)
    requires k <= |cuts| && Lo(cuts, k) <= j <= Hi(|ix|, cuts, k)
    ensures 0 <= Lo(cuts, k) && j < |ix| && ix[j] == ix[Lo(cuts, k)] + (j - Lo(cuts, k))
    decreases j - Lo(cuts, k)
  {
    LoHi(|ix|, cuts, k, k);
    if j > Lo(cuts, k) {
      SolidStep(ix, cuts, minGap, k, j - 1);
      NoCutInsideRun(ix, cuts, minGap, k, j - 1);
      IndexOrder(ix, j - 1, j);
    }
  }

  lemma SolidRun(values: seq<int>, minValue: int, minGap: int, ix: seq<nat>, cuts: seq<nat>,
                 starts: seq<int>, ends: seq<int>, k: int, p: int)
    requires minGap <= 1
    requires Runs(values, minValue, minGap, ix, cuts, starts, ends)
    requires 0 <= k < |starts| && starts[k] <= p < ends[k]
    ensures Active(values, minValue, p)
  {
    var n, lo, hi := |ix|, Lo(cuts, k), Hi(|ix|, cuts, k);
    LoHi(n, cuts, k, k);
    SolidStep(ix, cuts, minGap, k, hi);
    var j := lo + (p - starts[k]);
    SolidStep(ix, cuts, minGap, k, j);
  }

  // ---------------------------------------------------------------------
  // Properties of a split.

  /**
   * Starts and ends pair up, one pair more than there are cuts; both are
   * strictly ascending, every run is non-empty, and runs do not overlap.
   * The first run starts at the first active position and the last run
   * ends one past the last active position.
   */
  lemma SplitShape(values: seq<int>, minValue: int, minGap: int, starts: seq<int>, ends: seq<int>)
    requires SplitProjectionProfile(values, minValue, minGap) == Some((starts, ends))
    ensures |starts| == |ends| >= 1
    ensures |starts| == |Where(Diffs(Where(values, minValue)), minGap)| + 1
    ensures forall k :: 0 <= k < |starts| ==> 0 <= starts[k] < ends[k] <= |values|
    ensures forall k, l :: 0 <= k < l < |starts| ==> ends[k] <= starts[l]
    ensures forall k, l :: 0 <= k < l < |starts| ==> starts[k] < starts[l] && ends[k] < ends[l]
    ensures Active(values, minValue, starts[0])
    ensures forall p :: p < starts[0] ==> !Active(values, minValue, p)
    ensures Active(values, minValue, ends[|ends| - 1] - 1)
    ensures forall p :: ends[|ends| - 1] <= p ==> !Active(values, minValue, p)
  {
    var ix, cuts := SplitParts(values, minValue, minGap, starts, ends);
    RunsShape(values, minValue, minGap, ix, cuts, starts, ends);
  }

  lemma RunsShape(values: seq<int>, minValue: int, minGap: int, ix: seq<nat>, cuts: seq<nat>,
                  starts: seq<int>, ends: seq<int>)
    requires Runs(values, minValue, minGap, ix, cuts, starts, ends)
    ensures |starts| == |ends| >= 1
    ensures forall k :: 0 <= k < |starts| ==> 0 <= starts[k] < ends[k] <= |values|
    ensures forall k, l :: 0 <= k < l < |starts| ==> ends[k] <= starts[l]
    ensures forall k, l :: 0 <= k < l < |starts| ==> starts[k] < starts[l] && ends[k] < ends[l]
    ensures Active(values, minValue, starts[0])
    ensures forall p :: p < starts[0] ==> !Active(values, minValue, p)
    ensures Active(values, minValue, ends[|ends| - 1] - 1)
    ensures forall p :: ends[|ends| - 1] <= p ==> !Active(values, minValue, p)
  {
    forall k | 0 <= k < |starts| ensures 0 <= starts[k] < ends[k] <= |values| {
      RunAt(values, minValue, minGap, ix, cuts, starts, ends, k);
    }
    forall k, l | 0 <= k < l < |starts|
      ensures ends[k] <= starts[l] && starts[k] < starts[l] && ends[k] < ends[l]
    {
      RunsApart(values, minValue, minGap, ix, cuts, starts, ends, k, l);
    }
    RunAt(values, minValue, minGap, ix, cuts, starts, ends, 0);
    RunAt(values, minValue, minGap, ix, cuts, starts, ends, |starts| - 1);
    forall p | p < starts[0] || ends[|ends| - 1] <= p ensures !Active(values, minValue, p) {
      OutsideRuns(values, minValue, minGap, ix, cuts, starts, ends, p);
    }
  }

  /**
   * The first and last positions of every run are active, and every active
   * position lies in a run (in exactly one, as SplitShape shows the runs
   * disjoint); SplitRunOf names that run.
   */
  lemma SplitCovers(values: seq<int>, minValue: int, minGap: int, starts: seq<int>, ends: seq<int>)
    requires SplitProjectionProfile(values, minValue, minGap) == Some((starts, ends))
    ensures |starts| == |ends|
    ensures forall k :: 0 <= k < |starts| ==>
      0 <= starts[k] < |values| && values[starts[k]] > minValue &&
      0 < ends[k] <= |values| && values[ends[k] - 1] > minValue
    ensures forall p :: Active(values, minValue, p) ==> exists k :: 0 <= k < |starts| && starts[k] <= p < ends[k]
  {
    var ix, cuts := SplitParts(values, minValue, minGap, starts, ends);
    RunsCover(values, minValue, minGap, ix, cuts, starts, ends);
  }

  lemma RunsCover(values: seq<int>, minValue: int, minGap: int, ix: seq<nat>, cuts: seq<nat>,
                  starts: seq<int>, ends: seq<int>)
    requires Runs(values, minValue, minGap, ix, cuts, starts, ends)
    ensures |starts| == |ends|
    ensures forall k :: 0 <= k < |starts| ==>
      0 <= starts[k] < |values| && values[starts[k]] > minValue &&
      0 < ends[k] <= |values| && values[ends[k] - 1] > minValue
    ensures forall p :: Active(values, minValue, p) ==> exists k :: 0 <= k < |starts| && starts[k] <= p < ends[k]
  {
    forall k | 0 <= k < |starts|
      ensures 0 <= starts[k] < |values| && values[starts[k]] > minValue &&
        0 < ends[k] <= |values| && values[ends[k] - 1] > minValue
    {
      RunAt(values, minValue, minGap, ix, cuts, starts, ends, k);
    }
    forall p | Active(values, minValue, p) ensures exists k :: 0 <= k < |starts| && starts[k] <= p < ends[k] {
      var k := RunOfActive(values, minValue, minGap, ix, cuts, starts, ends, p);
    }
  }

  /** The run an active position lies in. */
  lemma SplitRunOf(values: seq<int>, minValue: int, minGap: int, starts: seq<int>, ends: seq<int>, p: int)
    returns (k: nat)
    requires SplitProjectionProfile(values, minValue, minGap) == Some((starts, ends))
    requires Active(values, minValue, p)
    ensures k < |starts| == |ends| && starts[k] <= p < ends[k]
  {
    var ix, cuts := SplitParts(values, minValue, minGap, starts, ends);
    k := RunOfActive(values, minValue, minGap, ix, cuts, starts, ends, p);
  }

  /**
   * Within a run, consecutive active positions are at most `minGap` apart;
   * from the last active position of run k to the first of run k + 1 the
   * distance exceeds `minGap`, and no position in between is active.
   */
  lemma SplitGaps(values: seq<int>, minValue: int, minGap: int, starts: seq<int>, ends: seq<int>)
    requires SplitProjectionProfile(values, minValue, minGap) == Some((starts, ends))
    ensures |starts| == |ends|
    ensures var ix := Where(values, minValue);
      forall k, j :: 0 <= k < |starts| && 0 <= j < |ix| - 1 && starts[k] <= ix[j] && ix[j + 1] < ends[k]
        ==> ix[j + 1] - ix[j] <= minGap
    ensures forall k :: 0 <= k < |starts| - 1 ==> starts[k + 1] - (ends[k] - 1) > minGap
    ensures forall k, p :: 0 <= k < |starts| - 1 && ends[k] <= p < starts[k + 1] ==> !Active(values, minValue, p)
  {
    var ix, cuts := SplitParts(values, minValue, minGap, starts, ends);
    RunsGaps(values, minValue, minGap, ix, cuts, starts, ends);
  }

  lemma RunsGaps(values: seq<int>, minValue: int, minGap: int, ix: seq<nat>, cuts: seq<nat>,
                 starts: seq<int>, ends: seq<int>)
    requires Runs(values, minValue, minGap, ix, cuts, starts, ends)
    ensures |starts| == |ends|
    ensures forall k, j :: 0 <= k < |starts| && 0 <= j < |ix| - 1 && starts[k] <= ix[j] && ix[j + 1] < ends[k] ==>
      ix[j + 1] - ix[j] <= minGap
    ensures forall k :: 0 <= k < |starts| - 1 ==> starts[k + 1] - (ends[k] - 1) > minGap
    ensures forall k, p :: 0 <= k < |starts| - 1 && ends[k] <= p < starts[k + 1] ==> !Active(values, minValue, p)
  {
    forall k, j | 0 <= k < |starts| && 0 <= j < |ix| - 1 && starts[k] <= ix[j] && ix[j + 1] < ends[k]
      ensures ix[j + 1] - ix[j] <= minGap
    {
      ConsecutiveInRun(values, minValue, minGap, ix, cuts, starts, ends, k, j);
    }
    forall k | 0 <= k < |starts| - 1 ensures starts[k + 1] - (ends[k] - 1) > minGap {
      GapAfterRun(values, minValue, minGap, ix, cuts, starts, ends, k);
    }
    forall k, p | 0 <= k < |starts| - 1 && ends[k] <= p < starts[k + 1] ensures !Active(values, minValue, p) {
      InactiveBetweenRuns(values, minValue, minGap, ix, cuts, starts, ends, k, p);
    }
  }

  /** When `minGap` is at most 1, every position of a run is active: runs are maximal active stretches. */
  lemma SplitRunsSolid(values: seq<int>, minValue: int, minGap: int, starts: seq<int>, ends: seq<int>)
    requires minGap <= 1
    requires SplitProjectionProfile(values, minValue, minGap) == Some((starts, ends))
    ensures |starts| == |ends|
    ensures forall k, p :: 0 <= k < |starts| && starts[k] <= p < ends[k] ==> Active(values, minValue, p)
  {
    var ix, cuts := SplitParts(values, minValue, minGap, starts, ends);
    forall k, p | 0 <= k < |starts| && starts[k] <= p < ends[k] ensures Active(values, minValue, p) {
      SolidRun(values, minValue, minGap, ix, cuts, starts, ends, k, p);
    }
  }

  /**
   * When `minGap` is at least 1, the position just before each run start is
   * inactive, and each run end below the last run is an inactive position
   * lying before the next run.
   */
  lemma SplitRunBorders(values: seq<int>, minValue: int, minGap: int, starts: seq<int>, ends: seq<int>)
    requires minGap >= 1
    requires SplitProjectionProfile(values, minValue, minGap) == Some((starts, ends))
    ensures |starts| == |ends|
    ensures forall k :: 0 <= k < |starts| ==> !Active(values, minValue, starts[k] - 1)
    ensures forall k :: 0 <= k < |starts| - 1 ==> ends[k] < starts[k + 1] && !Active(values, minValue, ends[k])
  {
    var ix, cuts := SplitParts(values, minValue, minGap, starts, ends);
    RunsBorders(values, minValue, minGap, ix, cuts, starts, ends);
  }

  lemma RunsBorders(values: seq<int>, minValue: int, minGap: int, ix: seq<nat>, cuts: seq<nat>,
                    starts: seq<int>, ends: seq<int>)
    requires minGap >= 1
    requires Runs(values, minValue, minGap, ix, cuts, starts, ends)
    ensures |starts| == |ends|
    ensures forall k :: 0 <= k < |starts| ==> !Active(values, minValue, starts[k] - 1)
    ensures forall k :: 0 <= k < |starts| - 1 ==> ends[k] < starts[k + 1] && !Active(values, minValue, ends[k])
  {
    forall k | 0 <= k < |starts| ensures !Active(values, minValue, starts[k] - 1) {
      if k == 0 {
        OutsideRuns(values, minValue, minGap, ix, cuts, starts, ends, starts[0] - 1);
      } else {
        GapAfterRun(values, minValue, minGap, ix, cuts, starts, ends, k - 1);
        InactiveBetweenRuns(values, minValue, minGap, ix, cuts, starts, ends, k - 1, starts[k] - 1);
      }
    }
    forall k | 0 <= k < |starts| - 1 ensures ends[k] < starts[k + 1] && !Active(values, minValue, ends[k]) {
      GapAfterRun(values, minValue, minGap, ix, cuts, starts, ends, k);
      InactiveBetweenRuns(values, minValue, minGap, ix, cuts, starts, ends, k, ends[k]);
    }
  }
}
