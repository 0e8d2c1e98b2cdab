/**
 The batch plan, `calculate_batches`: the 1-based page range
 `[start, end]` is cut into `ceil((end - start + 1) / size)` consecutive
 batches of `size` pages, the last one possibly shorter, each given as a pair
 of 0-based page indices `(first, last)`, both inclusive.

 The source fixes `start = 16`, `end = 736` and `size = 30`; here they are
 parameters, the properties are proved for every choice with `size > 0`, and
 `CalculateBatches` is the fixed instance. With a positive divisor, Dafny's
 `/` is Python's floor division `//`, so the count is the source's also when
 the range is empty.
 */
module BatchPlan {

  const START_PAGE: int := 16
  const END_PAGE: int := 736
  const BATCH_SIZE: int := 30

  function Min(a: int, b: int): int {
    if a <= b then a else b
  }

  /** `num_batches`: `(total_pages + batch_size - 1) // batch_size`. */
  function NumBatches(start: int, end: int, size: int): int
    requires size > 0
  {
    (end - start + 1 + size - 1) / size
  }

  /** The pair the loop appends on round `i`. */
  function BatchAt(start: int, end: int, size: int, i: int): (int, int) {
    (start - 1 + i * size, Min(start - 1 + (i + 1) * size - 1, end - 1))
  }

  /** The whole plan: one pair per round of `range(num_batches)`, none when
      the count is not positive. */
  function Plan(start: int, end: int, size: int): seq<(int, int)>
    requires size > 0
  {
    var n := NumBatches(start, end, size);
    if n <= 0 then [] else seq(n, i => BatchAt(start, end, size, i))
  }

  /** `calculate_batches` with the three constants as parameters. */
  method CalculateBatchesFor(start: int, end: int, size: int) returns (batches: seq<(int, int)>)
    requires size > 0
    ensures batches == Plan(start, end, size)
    ensures start > end ==> batches == []
    ensures start <= end ==>
      && |batches| * size >= end - start + 1
      && (|batches| - 1) * size < end - start + 1
      && batches[0].0 == start - 1
      && batches[|batches| - 1].1 == end - 1
  {
    var numBatches := NumBatches(start, end, size);
    batches := [];
    var i := 0;
    while i < numBatches
      invariant 0 <= i <= if numBatches > 0 then numBatches else 0
      invariant |batches| == i
      invariant forall k :: 0 <= k < i ==> batches[k] == BatchAt(start, end, size, k)
    {
      var batchStart := start - 1 + i * size;
      var batchEnd := Min(start - 1 + (i + 1) * size - 1, end - 1);
      batches := batches + [(batchStart, batchEnd)];
      i := i + 1;
    }
    PlanCount(start, end, size);
    if start <= end {
      PlanEnds(start, end, size);
    }
  }

  /** The fixed plan of the source: pages 16 to 736 in batches of 30. */
  method CalculateBatches() returns (batches: seq<(int, int)>)
    ensures batches == Plan(START_PAGE, END_PAGE, BATCH_SIZE)
    ensures |batches| == 25
    ensures batches[0] == (15, 44) && batches[24] == (735, 735)
  {
    batches := CalculateBatchesFor(START_PAGE, END_PAGE, BATCH_SIZE);
    FixedPlan();
  }

  lemma MulMonotone(a: int, b: int, c: int)
    requires a <= b && 0 <= c
    ensures a * c <= b * c
  {
    assert b * c - a * c == (b - a) * c;
  }

  /** The count is the ceiling of the number of pages over the batch size:
      `n` batches hold all pages and `n - 1` do not. */
  lemma PlanCount(start: int, end: int, size: int)
    requires size > 0
    ensures start > end ==> Plan(start, end, size) == []
    ensures start <= end ==>
      var n := |Plan(start, end, size)|;
      n >= 1 && n * size >= end - start + 1 && (n - 1) * size < end - start + 1
  {
    var t := end - start + 1;
    var n := NumBatches(start, end, size);
    var r := (t + size - 1) % size;
    assert t + size - 1 == n * size + r;
    if start > end {
      if n > 0 {
        MulMonotone(1, n, size);
      }
    } else {
      assert n * size == t + size - 1 - r;
      if n <= 0 {
        MulMonotone(n, 0, size);
      }
    }
  }

  /** The first batch starts at index `start - 1` and the last ends at
      `end - 1`. */
  lemma PlanEnds(start: int, end: int, size: int)
    requires size > 0 && start <= end
    ensures var b := Plan(start, end, size);
      |b| >= 1 && b[0].0 == start - 1 && b[|b| - 1].1 == end - 1
  {
    PlanCount(start, end, size);
    var b := Plan(start, end, size);
    var n := |b|;
    assert b[n - 1] == BatchAt(start, end, size, n - 1);
    assert start - 1 + n * size - 1 >= end - 1;
  }

  /** Every batch but the last holds exactly `size` pages; the last holds
      between one and `size`. */
  lemma PlanSizes(start: int, end: int, size: int, i: int)
    requires size > 0
    requires 0 <= i < |Plan(start, end, size)|
    ensures var b := Plan(start, end, size)[i];
      && (i < |Plan(start, end, size)| - 1 ==> b.1 - b.0 + 1 == size)
      && 1 <= b.1 - b.0 + 1 <= size
  {
    PlanCount(start, end, size);
    var n := |Plan(start, end, size)|;
    assert start <= end;
    if i < n - 1 {
      MulMonotone(i + 1, n - 1, size);
    } else {
      MulMonotone(i, n - 1, size);
    }
  }

  /** Each batch starts right after the previous one ends. */
  lemma PlanContiguous(start: int, end: int, size: int, i: int)
    requires size > 0
    requires 0 <= i && i + 1 < |Plan(start, end, size)|
    ensures Plan(start, end, size)[i + 1].0 == Plan(start, end, size)[i].1 + 1
  {
    PlanSizes(start, end, size, i);
  }

  /** Batches come in ascending order and do not overlap. */
  lemma PlanAscending(start: int, end: int, size: int, i: int, j: int)
    requires size > 0
    requires 0 <= i < j < |Plan(start, end, size)|
    ensures Plan(start, end, size)[i].1 < Plan(start, end, size)[j].0
  {
    MulMonotone(i + 1, j, size);
  }

  /** Page index `p` is in batch `b`. */
  predicate InBatch(b: (int, int), p: int) {
    b.0 <= p <= b.1
  }

  /** The batches cover exactly the page indices `start - 1` to `end - 1`,
      each of them in exactly one batch. */
  lemma PlanCovers(start: int, end: int, size: int, p: int)
    requires size > 0
    ensures var b := Plan(start, end, size);
      (start - 1 <= p <= end - 1) <==> exists i :: 0 <= i < |b| && InBatch(b[i], p)
    ensures var b := Plan(start, end, size);
      forall i, j :: 0 <= i < |b| && 0 <= j < |b| && InBatch(b[i], p) && InBatch(b[j], p) ==> i == j
  {
    var b := Plan(start, end, size);
    PlanCount(start, end, size);
    forall i | 0 <= i < |b| && InBatch(b[i], p)
      ensures start - 1 <= p <= end - 1
    {
      MulMonotone(0, i, size);
    }
    if start - 1 <= p <= end - 1 {
      var n := |b|;
      var i := (p - (start - 1)) / size;
      assert i * size <= p - (start - 1) < (i + 1) * size;
      if i >= n {
        MulMonotone(n, i, size);
      }
      assert InBatch(b[i], p);
    }
    forall i, j | 0 <= i < |b| && 0 <= j < |b| && InBatch(b[i], p) && InBatch(b[j], p)
      ensures i == j
    {
      if i < j {
        PlanAscending(start, end, size, i, j);
      } else if j < i {
        PlanAscending(start, end, size, j, i);
      }
    }
  }

  /** The fixed instance: 721 pages make 25 batches, from indices 15-44 to
      the one-page batch 735-735. */
  lemma FixedPlan()
    ensures var b := Plan(START_PAGE, END_PAGE, BATCH_SIZE);
      && END_PAGE - START_PAGE + 1 == 721
      && |b| == 25
      && b[0] == (15, 44)
      && b[23] == (705, 734)
      && b[24] == (735, 735)
  {
    assert NumBatches(START_PAGE, END_PAGE, BATCH_SIZE) == 25;
  }
}
