/**
 * The batching step that all three renderers share: the frame's queue is cut
 * into maximal runs of adjacent entries with the same resource handle, and
 * one instanced draw call is issued per run.
 *
 * `Runs` is the reference definition, `IsMaximalRunSplit` says what a correct
 * split is, and `BatchDraws` is the do-while loop of RenderQueue.
 */
module Batching {
  import opened Gpu

  /** A batch: `size` queue entries starting at index `start`. */
  datatype Run = Run(start: nat, size: nat)

  /**
   * Where the run that starts at `s` ends, having already checked the entries
   * up to `k`: the first index from `k` on whose handle differs from `h[s]`,
   * or the queue length.
   */
  function RunEnd<H(==)>(h: seq<H>, s: nat, k: nat): (e: nat)
    requires s < k <= |h|
    ensures k <= e <= |h|
    ensures forall j :: k <= j < e ==> h[j] == h[s]
    ensures e == |h| || h[e] != h[s]
    decreases |h| - k
  {
    if k < |h| && h[k] == h[s] then RunEnd(h, s, k + 1) else k
  }

  /** The runs of `h` from index `i` on. */
  function RunsFrom<H(==)>(h: seq<H>, i: nat): seq<Run>
    requires i <= |h|
    decreases |h| - i
  {
    if i == |h| then []
    else
      var e := RunEnd(h, i, i + 1);
      [Run(i, e - i)] + RunsFrom(h, e)
  }

  /** The runs of the whole queue. */
  function Runs<H(==)>(h: seq<H>): seq<Run>
  {
    RunsFrom(h, 0)
  }

  /**
   * `rs` cuts `h[i..]` into non-empty runs, each starting where the previous
   * one ends and holding entries of one handle, the last ending at the end of
   * the queue, and no two neighbouring runs have the same handle.
   */
  ghost predicate IsMaximalRunSplitFrom<H>(h: seq<H>, i: nat, rs: seq<Run>)
    decreases |rs|
  {
    if rs == [] then i == |h|
    else
      var e := i + rs[0].size;
      && rs[0].start == i && rs[0].size >= 1 && e <= |h|
      && (forall k :: i <= k < e ==> h[k] == h[i])
      && (e < |h| ==> h[e] != h[i])
      && IsMaximalRunSplitFrom(h, e, rs[1..])
  }

  ghost predicate IsMaximalRunSplit<H>(h: seq<H>, rs: seq<Run>)
  {
    IsMaximalRunSplitFrom(h, 0, rs)
  }

  /** The reference definition splits the queue into maximal runs. */
  lemma {:induction false} RunsFromAreMaximal<H>(h: seq<H>, i: nat)
    requires i <= |h|
    ensures IsMaximalRunSplitFrom(h, i, RunsFrom(h, i))
    decreases |h| - i
  {
    if i < |h| {
      var e := RunEnd(h, i, i + 1);
      RunsFromAreMaximal(h, e);
      var rs := RunsFrom(h, i);
      assert rs[0] == Run(i, e - i) && rs[1..] == RunsFrom(h, e);
    }
  }

  lemma RunsAreMaximal<H>(h: seq<H>)
    ensures IsMaximalRunSplit(h, Runs(h))
  {
    RunsFromAreMaximal(h, 0);
  }

  /** Every run of a split from i lies inside the queue, from i on, and each starts after the one before. */
  lemma {:induction false} SplitRunsInside<H>(h: seq<H>, i: nat, rs: seq<Run>)
    requires IsMaximalRunSplitFrom(h, i, rs)
    ensures forall j :: 0 <= j < |rs| ==> i <= rs[j].start && rs[j].start + rs[j].size <= |h|
    ensures forall j :: 0 < j < |rs| ==> rs[j - 1].start < rs[j].start
    decreases |rs|
  {
    if rs != [] {
      SplitRunsInside(h, i + rs[0].size, rs[1..]);
      assert forall j :: 0 < j < |rs| ==> rs[j] == rs[1..][j - 1];
    }
  }

  /** RunEnd finds e when the entries from k up to e have h[s]'s handle and the one at e does not. */
  lemma {:induction false} RunEndIs<H>(h: seq<H>, s: nat, k: nat, e: nat)
    requires s < k <= e <= |h|
    requires forall j :: k <= j < e ==> h[j] == h[s]
    requires e == |h| || h[e] != h[s]
    ensures RunEnd(h, s, k) == e
    decreases e - k
  {
    if k < e {
      RunEndIs(h, s, k + 1, e);
    }
  }

  /**
   * A maximal run split is unique: any split from `i` that is maximal is
   * exactly the runs of the reference definition.
   */
  lemma {:induction false} MaximalRunSplitIsRuns<H>(h: seq<H>, i: nat, rs: seq<Run>)
    requires IsMaximalRunSplitFrom(h, i, rs)
    ensures rs == RunsFrom(h, i)
    decreases |rs|
  {
    if rs != [] {
      var e := i + rs[0].size;
      RunEndIs(h, i, i + 1, e);
      MaximalRunSplitIsRuns(h, e, rs[1..]);
      assert rs == [rs[0]] + rs[1..];
    }
  }

  /** Hence two maximal run splits of the same queue are equal. */
  lemma MaximalRunSplitIsUnique<H>(h: seq<H>, r1: seq<Run>, r2: seq<Run>)
    requires IsMaximalRunSplit(h, r1) && IsMaximalRunSplit(h, r2)
    ensures r1 == r2
  {
    MaximalRunSplitIsRuns(h, 0, r1);
    MaximalRunSplitIsRuns(h, 0, r2);
  }

  function SumSizes(rs: seq<Run>): nat
  {
    if rs == [] then 0 else rs[0].size + SumSizes(rs[1..])
  }

  /** The run sizes add up to the number of queue entries: every entry is drawn once. */
  lemma {:induction false} RunSizesCoverQueue<H>(h: seq<H>, i: nat)
    requires i <= |h|
    ensures SumSizes(RunsFrom(h, i)) == |h| - i
    decreases |h| - i
  {
    if i < |h| {
      var e := RunEnd(h, i, i + 1);
      RunSizesCoverQueue(h, e);
      assert RunsFrom(h, i)[1..] == RunsFrom(h, e);
    }
  }

  /** Run starts (the draws' instance offsets) strictly increase. */
  lemma RunStartsIncrease<H>(h: seq<H>, j: nat, k: nat)
    requires j < k < |Runs(h)|
    ensures Runs(h)[j].start < Runs(h)[k].start
  {
    RunsAreMaximal(h);
    var rs := Runs(h);
    SplitRunsInside(h, 0, rs);
    var m := j;
    while m < k
      invariant j <= m <= k
      invariant rs[j].start <= rs[m].start && (m > j ==> rs[j].start < rs[m].start)
    {
      m := m + 1;
    }
  }

  /** Handles [X, X, Y, X, X] make three batches of 2, 1 and 2. */
  lemma ExampleFiveEntries<H>(x: H, y: H)
    requires x != y
    ensures Runs([x, x, y, x, x]) == [Run(0, 2), Run(2, 1), Run(3, 2)]
  {
    var h := [x, x, y, x, x];
    assert RunEnd(h, 0, 1) == 2;
    assert RunEnd(h, 2, 3) == 3;
    assert RunEnd(h, 3, 4) == 5;
    assert RunsFrom(h, 5) == [];
    assert RunsFrom(h, 3) == [Run(3, 2)];
    assert RunsFrom(h, 2) == [Run(2, 1), Run(3, 2)];
  }

  /** The draw call for a run. */
  function DrawFor(h: seq<ResourceSet?>, r: Run): DrawCall
    requires r.start < |h|
  {
    Draw(h[r.start], QuadVertexCount, r.size, 0, r.start)
  }

  ghost predicate RunsInside(h: seq<ResourceSet?>, rs: seq<Run>)
  {
    forall j :: 0 <= j < |rs| ==> rs[j].start < |h|
  }

  function DrawsFor(h: seq<ResourceSet?>, rs: seq<Run>): seq<DrawCall>
    requires forall j :: 0 <= j < |rs| ==> rs[j].start < |h|
  {
    if rs == [] then [] else [DrawFor(h, rs[0])] + DrawsFor(h, rs[1..])
  }

  lemma {:induction false} RunsFromInside(h: seq<ResourceSet?>, i: nat)
    requires i <= |h|
    ensures forall j :: 0 <= j < |RunsFrom(h, i)| ==> RunsFrom(h, i)[j].start < |h|
  {
    RunsFromAreMaximal(h, i);
    SplitRunsInside(h, i, RunsFrom(h, i));
    forall j | 0 <= j < |RunsFrom(h, i)|
      ensures RunsFrom(h, i)[j].start < |h|
    {
      SplitRunSize(h, i, RunsFrom(h, i), j);
    }
  }

  /** Every run of a split is non-empty. */
  lemma {:induction false} SplitRunSize<H>(h: seq<H>, i: nat, rs: seq<Run>, j: nat)
    requires IsMaximalRunSplitFrom(h, i, rs) && j < |rs|
    ensures rs[j].size >= 1
    decreases j
  {
    if j > 0 {
      SplitRunSize(h, i + rs[0].size, rs[1..], j - 1);
    }
  }

  /** The draw calls RenderQueue issues for a queue whose handles are `h`. */
  function RunDraws(h: seq<ResourceSet?>): seq<DrawCall>
  {
    RunsFromInside(h, 0);
    DrawsFor(h, Runs(h))
  }

  lemma {:induction false} DrawsForLength(h: seq<ResourceSet?>, rs: seq<Run>)
    requires forall j :: 0 <= j < |rs| ==> rs[j].start < |h|
    ensures |DrawsFor(h, rs)| == |rs|
    ensures forall j :: 0 <= j < |rs| ==> DrawsFor(h, rs)[j] == DrawFor(h, rs[j])
    decreases |rs|
  {
    if rs != [] {
      DrawsForLength(h, rs[1..]);
    }
  }

  /**
   * One draw per maximal run: the draw's handle is the run's handle, its
   * instance count the run length and its instance offset the run start.
   */
  lemma RunDrawsAreRuns(h: seq<ResourceSet?>)
    ensures |RunDraws(h)| == |Runs(h)|
    ensures forall j :: 0 <= j < |Runs(h)| ==>
      var r := Runs(h)[j];
      r.start < |h| && RunDraws(h)[j] == Draw(h[r.start], QuadVertexCount, r.size, 0, r.start)
  {
    RunsFromInside(h, 0);
    DrawsForLength(h, Runs(h));
  }

  /**
   * The batching loop of RenderQueue: walk the queue, and for each entry
   * that starts a batch count the following entries with the same handle
   * (`do { i++; size++; } while (i < n && h[i] == rs)`), then issue one draw.
   */
  method BatchDraws(h: seq<ResourceSet?>) returns (draws: seq<DrawCall>)
    ensures draws == RunDraws(h)
  {
    RunsFromInside(h, 0);
    draws := [];
    var i := 0;
    while i < |h|
      invariant 0 <= i <= |h|
      invariant forall j :: 0 <= j < |RunsFrom(h, i)| ==> RunsFrom(h, i)[j].start < |h|
      invariant RunDraws(h) == draws + DrawsFor(h, RunsFrom(h, i))
      decreases |h| - i
    {
      var batchStart := i;
      var rs := h[i];
      var batchSize := 0;
      i := i + 1;
      batchSize := batchSize + 1;
      while i < |h| && h[i] == rs
        invariant batchStart < i <= |h|
        invariant batchSize == i - batchStart
        invariant RunEnd(h, batchStart, i) == RunEnd(h, batchStart, batchStart + 1)
        decreases |h| - i
      {
        i := i + 1;
        batchSize := batchSize + 1;
      }
      RunsFromInside(h, i);
      assert RunsFrom(h, batchStart) == [Run(batchStart, batchSize)] + RunsFrom(h, i);
      var d := Draw(rs, QuadVertexCount, batchSize, 0, batchStart);
      assert DrawsFor(h, RunsFrom(h, batchStart)) == [d] + DrawsFor(h, RunsFrom(h, i));
      assert draws + [d] + DrawsFor(h, RunsFrom(h, i)) == draws + ([d] + DrawsFor(h, RunsFrom(h, i)));
      draws := draws + [d];
    }
  }
}
