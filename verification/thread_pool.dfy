/** The range partitioning of `ThreadPool::dispatch`: how `[0, count)` is cut
    into one contiguous slice per worker before the slices are queued. */
module ThreadPool {

  /** The half-open index range [start, end) that one queued task receives. */
  datatype Slice = Slice(start: nat, end: nat)

  function Min(a: nat, b: nat): (m: nat) {
    if a < b then a else b
  }

  /** The slices are non-empty and laid end to end from 0 to `count`. */
  ghost predicate Tiles(slices: seq<Slice>, count: nat): (tiles: bool) {
    && (forall k :: 0 <= k < |slices| ==> slices[k].start < slices[k].end)
    && (forall k :: 0 < k < |slices| ==> slices[k].start == slices[k - 1].end)
    && (|slices| == 0 ==> count == 0)
    && (|slices| > 0 ==> slices[0].start == 0 && slices[|slices| - 1].end == count)
  }

  /** Ends of laid-end-to-end slices grow strictly. */
  lemma {:induction false} TilesOrdered(slices: seq<Slice>, count: nat, a: nat, b: nat)
    requires Tiles(slices, count) && a < b < |slices|
    ensures slices[a].end <= slices[b].start
    decreases b - a
  {
    if a + 1 < b {
      TilesOrdered(slices, count, a, b - 1);
    }
  }

  /** No index is handed to two tasks: distinct slices do not overlap. */
  lemma TilesDisjoint(slices: seq<Slice>, count: nat)
    requires Tiles(slices, count)
    ensures forall a, b :: 0 <= a < b < |slices| ==> slices[a].end <= slices[b].start
  {
    forall a, b | 0 <= a < b < |slices| ensures slices[a].end <= slices[b].start {
      TilesOrdered(slices, count, a, b);
    }
  }

  /** Every index below `count`, and no other, is handed to some task. */
  lemma {:induction false} TilesCover(slices: seq<Slice>, count: nat, x: nat)
    requires Tiles(slices, count)
    ensures x < count <==> exists k :: 0 <= k < |slices| && slices[k].start <= x < slices[k].end
    decreases |slices|
  {
    if |slices| > 0 {
      var m := |slices| - 1;
      var front := slices[..m];
      if m == 0 {
        assert slices[0].start == 0 && slices[0].end == count;
      } else {
        assert Tiles(front, slices[m].start);
        TilesCover(front, slices[m].start, x);
        if x < count && x >= slices[m].start {
          assert slices[m].start <= x < slices[m].end;
        }
        if exists k :: 0 <= k < |slices| && slices[k].start <= x < slices[k].end {
          var k :| 0 <= k < |slices| && slices[k].start <= x < slices[k].end;
          if k < m {
            assert front[k] == slices[k];
            TilesOrdered(slices, count, k, m);
          }
        }
      }
    }
  }

  /** The division the slicing starts from: `count` is `threadCount` full
      batches plus fewer than `threadCount` extra items. */
  lemma SharesAddUp(count: nat, threadCount: nat)
    requires threadCount > 0
    ensures count == threadCount * (count / threadCount) + count % threadCount
    ensures count % threadCount < threadCount
  {
  }

  /** Where slice `i` starts: the sizes of the slices before it added up. */
  function Offset(i: nat, batch: nat, extra: nat): (start: nat) {
    if i == 0 then 0 else Offset(i - 1, batch, extra) + batch + (if i - 1 < extra then 1 else 0)
  }

  lemma {:induction false} OffsetClosed(i: nat, batch: nat, extra: nat)
    ensures Offset(i, batch, extra) == i * batch + Min(i, extra)
  {
    if i > 0 {
      OffsetClosed(i - 1, batch, extra);
      assert i * batch == (i - 1) * batch + batch;
    }
  }

  /** Where the loop stops: after every worker, or at the first empty slice,
      which only happens when the batch is zero and the extra items are used
      up. Either way one slice per item or per worker, whichever is fewer, has
      been queued and they reach `count`. */
  lemma Exhausted(count: nat, threadCount: nat, batch: nat, extra: nat, i: nat)
    requires count == threadCount * batch + extra && extra < threadCount
    requires i <= threadCount
    requires batch == 0 ==> i <= extra
    requires i == threadCount || (batch == 0 && i >= extra)
    ensures i == Min(count, threadCount)
    ensures Offset(i, batch, extra) == count
  {
    OffsetClosed(i, batch, extra);
    if batch > 0 {
      assert threadCount * batch == threadCount * (batch - 1) + threadCount;
    }
  }

  /** Slice k of the loop: from the end of the previous slices to its own
      end. */
  function SliceAt(k: nat, batch: nat, extra: nat): (slice: Slice) {
    Slice(Offset(k, batch, extra), Offset(k + 1, batch, extra))
  }

  /** The first slices of the loop, stopped as `Exhausted` describes, are what
      `Dispatch` promises. */
  lemma {:induction false} QueuedSlices(count: nat, threadCount: nat, batch: nat, extra: nat, slices: seq<Slice>)
    requires count == threadCount * batch + extra && extra < threadCount
    requires forall k :: 0 <= k < |slices| ==> slices[k] == SliceAt(k, batch, extra)
    requires |slices| <= threadCount
    requires batch == 0 ==> |slices| <= extra
    requires |slices| == threadCount || (batch == 0 && |slices| >= extra)
    ensures Tiles(slices, count)
    ensures |slices| == Min(count, threadCount)
    ensures forall k :: 0 <= k < |slices| ==>
      slices[k].end - slices[k].start == batch + (if k < extra then 1 else 0)
  {
    Exhausted(count, threadCount, batch, extra, |slices|);
  }

  /** The slices `dispatch(count, ...)` queues on a pool of `threadCount`
      workers. Slice i holds count / threadCount indices, plus one more when
      i < count % threadCount. The pool then waits for the tasks, which the
      model leaves out. */
  method Dispatch(count: nat, threadCount: nat) returns (slices: seq<Slice>)
    requires threadCount > 0
    ensures Tiles(slices, count)
    ensures |slices| == Min(count, threadCount)
    ensures forall k :: 0 <= k < |slices| ==>
      slices[k].end - slices[k].start == count / threadCount + (if k < count % threadCount then 1 else 0)
  {
    var batch := count / threadCount;
    var extra := count % threadCount;
    SharesAddUp(count, threadCount);
    slices := QueueBatches(threadCount, batch, extra);
    QueuedSlices(count, threadCount, batch, extra, slices);
  }

  /** The loop of `dispatch`: slice i runs from where slice i - 1 ended and
      holds `batch` items, plus one for i < extra; the loop stops at the first
      empty slice or after `threadCount` slices. */
  method QueueBatches(threadCount: nat, batch: nat, extra: nat) returns (slices: seq<Slice>)
    ensures forall k :: 0 <= k < |slices| ==> slices[k] == SliceAt(k, batch, extra)
    ensures |slices| <= threadCount
    ensures batch == 0 ==> |slices| <= extra
    ensures |slices| == threadCount || (batch == 0 && |slices| >= extra)
  {
    slices := [];
    var start := 0;
    var i := 0;
    while i < threadCount
      invariant 0 <= i <= threadCount && |slices| == i
      invariant start == Offset(i, batch, extra)
      invariant forall k :: 0 <= k < i ==> slices[k] == SliceAt(k, batch, extra)
      invariant batch == 0 ==> i <= extra
    {
      var end := start + batch + (if i < extra then 1 else 0);
      if start >= end {
        // no empty slice is queued
        break;
      }
      slices := slices + [Slice(start, end)];
      start := end;
      i := i + 1;
    }
  }

  /** Seventeen items over four workers: [0, 5), [5, 9), [9, 13), [13, 17). */
  method DispatchSeventeenOverFour() returns (slices: seq<Slice>)
    ensures slices == [Slice(0, 5), Slice(5, 9), Slice(9, 13), Slice(13, 17)]
  {
    slices := Dispatch(17, 4);
    assert slices[0] == Slice(0, 5);
    assert slices[1] == Slice(5, 9);
    assert slices[2] == Slice(9, 13);
  }
}
