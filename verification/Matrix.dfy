/** Reducing the resolution of a heatmap: blocks of cells are replaced by their means
    (internal/httpapi/rich_observations.go:617-678).  Cells are real numbers or missing. */
module Matrix {
  import opened Domain

  type Cells = seq<seq<Option<real>>>

  datatype Resolution = Resolution(aggregated: bool, originalRows: nat, originalColumns: nat, rows: nat, columns: nat)

  /** Label lists may be empty: labels are optional. */
  datatype Observation = Observation(matrixType: string, values: Cells, rowLabels: seq<string>, columnLabels: seq<string>)

  function Columns(values: Cells): nat {
    if values == [] then 0 else |values[0]|
  }

  ghost predicate Rectangular(values: Cells) {
    forall r :: 0 <= r < |values| ==> |values[r]| == Columns(values)
  }

  /** What publishing a matrix validates (internal/httpapi/rich_observations.go:171-185). */
  ghost predicate Valid(values: Cells) {
    Rectangular(values) && (values != [] ==> Columns(values) > 0)
  }

  function AtMost(a: nat, b: nat): nat {
    if a < b then a else b
  }

  function Target(matrixType: string, mode: string): nat {
    if matrixType != "heatmap" then 0
    else if mode == "auto" || mode == "64" then 64
    else if mode == "32" then 32
    else 0
  }

  // ---------------------------------------------------------------- strides and blocks

  function DivideUp(n: nat, d: nat): nat
    requires d > 0
  {
    (n + d - 1) / d
  }

  /** First index of block `b`, and the first index behind it. */
  function From(b: nat, stride: nat): nat {
    b * stride
  }

  function To(b: nat, stride: nat, size: nat): nat {
    AtMost(size, From(b + 1, stride))
  }

  lemma DivideUpIs(n: nat, d: nat)
    requires d > 0
    ensures DivideUp(n, d) * d >= n
    ensures n > 0 ==> (DivideUp(n, d) - 1) * d < n && DivideUp(n, d) > 0
  {
  }

  lemma Monotone(a: nat, b: nat, d: nat)
    requires a <= b
    ensures a * d <= b * d
  {
  }

  lemma LessFactor(a: nat, b: nat, d: nat)
    requires a * d < b * d
    ensures a < b
  {
  }

  /** With a stride of a target-th of the size, rounded up, there are at most `target` blocks. */
  lemma {:induction false} BlocksAtMostTarget(size: nat, target: nat)
    requires size > 0 && target > 0
    ensures var stride := DivideUp(size, target); stride > 0 && 0 < DivideUp(size, stride) <= target
  {
    var stride := DivideUp(size, target);
    DivideUpIs(size, target);
    DivideUpIs(size, stride);
    hide DivideUp;
    assert stride * target == target * stride;
    LessFactor(DivideUp(size, stride) - 1, target, stride);
  }

  lemma Quotient(i: nat, d: nat)
    requires d > 0
    ensures (i / d) * d <= i < (i / d + 1) * d
  {
  }

  /** Every index lies in exactly one block. */
  lemma {:induction false} InOneBlock(i: nat, size: nat, stride: nat, b: nat)
    requires i < size && stride > 0
    ensures From(b, stride) <= i < To(b, stride, size) <==> b == i / stride
    ensures i / stride < DivideUp(size, stride)
  {
    var q := i / stride;
    Quotient(i, stride);
    if b < q {
      Monotone(b + 1, q, stride);
    } else if b > q {
      Monotone(q + 1, b, stride);
    }
    DivideUpIs(size, stride);
    LessFactor(q, DivideUp(size, stride), stride);
    hide DivideUp;
  }

  /** Blocks are not empty and follow each other to the end. */
  lemma {:induction false} BlocksFollow(b: nat, size: nat, stride: nat)
    requires stride > 0 && b < DivideUp(size, stride)
    ensures From(b, stride) < To(b, stride, size) <= size
    ensures To(b, stride, size) == AtMost(size, From(b + 1, stride))
    ensures b + 1 == DivideUp(size, stride) ==> To(b, stride, size) == size
  {
    DivideUpIs(size, stride);
    assert size > 0;
    Monotone(b, DivideUp(size, stride) - 1, stride);
    assert (b + 1) * stride == b * stride + stride;
  }

  // ---------------------------------------------------------------- sums and counts

  function Value(c: Option<real>): real {
    if c.Some? then c.value else 0.0
  }

  function RowSum(row: seq<Option<real>>, c0: nat, c1: nat): real
    requires c0 <= c1 <= |row|
    decreases c1
  {
    if c0 == c1 then 0.0 else RowSum(row, c0, c1 - 1) + Value(row[c1 - 1])
  }

  function RowCount(row: seq<Option<real>>, c0: nat, c1: nat): nat
    requires c0 <= c1 <= |row|
    decreases c1
  {
    if c0 == c1 then 0 else RowCount(row, c0, c1 - 1) + (if row[c1 - 1].Some? then 1 else 0)
  }

  ghost predicate Inside(values: Cells, r0: nat, r1: nat, c0: nat, c1: nat) {
    Rectangular(values) && r0 <= r1 <= |values| && c0 <= c1 <= Columns(values)
  }

  ghost function Sum(values: Cells, r0: nat, r1: nat, c0: nat, c1: nat): real
    requires Inside(values, r0, r1, c0, c1)
    decreases r1
  {
    if r0 == r1 then 0.0 else Sum(values, r0, r1 - 1, c0, c1) + RowSum(values[r1 - 1], c0, c1)
  }

  ghost function Count(values: Cells, r0: nat, r1: nat, c0: nat, c1: nat): nat
    requires Inside(values, r0, r1, c0, c1)
    decreases r1
  {
    if r0 == r1 then 0 else Count(values, r0, r1 - 1, c0, c1) + RowCount(values[r1 - 1], c0, c1)
  }

  lemma {:induction false} RowSumSplit(row: seq<Option<real>>, a: nat, b: nat, c: nat)
    requires a <= b <= c <= |row|
    ensures RowSum(row, a, c) == RowSum(row, a, b) + RowSum(row, b, c)
    decreases c
  {
    if b < c {
      RowSumSplit(row, a, b, c - 1);
    }
  }

  lemma {:induction false} SumSplitColumns(values: Cells, r0: nat, r1: nat, a: nat, b: nat, c: nat)
    requires Rectangular(values) && r0 <= r1 <= |values| && a <= b <= c <= Columns(values)
    ensures Sum(values, r0, r1, a, c) == Sum(values, r0, r1, a, b) + Sum(values, r0, r1, b, c)
    decreases r1
  {
    if r0 < r1 {
      SumSplitColumns(values, r0, r1 - 1, a, b, c);
      RowSumSplit(values[r1 - 1], a, b, c);
    }
  }

  lemma {:induction false} SumSplitRows(values: Cells, a: nat, b: nat, c: nat, c0: nat, c1: nat)
    requires Rectangular(values) && a <= b <= c <= |values| && c0 <= c1 <= Columns(values)
    ensures Sum(values, a, c, c0, c1) == Sum(values, a, b, c0, c1) + Sum(values, b, c, c0, c1)
    decreases c
  {
    if b < c {
      SumSplitRows(values, a, b, c - 1, c0, c1);
    }
  }

  lemma {:induction false} RowCountZero(row: seq<Option<real>>, c0: nat, c1: nat)
    requires c0 <= c1 <= |row|
    ensures RowCount(row, c0, c1) == 0 <==> forall c :: c0 <= c < c1 ==> row[c].None?
    ensures RowCount(row, c0, c1) == 0 ==> RowSum(row, c0, c1) == 0.0
    decreases c1
  {
    if c0 < c1 {
      RowCountZero(row, c0, c1 - 1);
    }
  }

  lemma {:induction false} CountZero(values: Cells, r0: nat, r1: nat, c0: nat, c1: nat)
    requires Inside(values, r0, r1, c0, c1)
    ensures Count(values, r0, r1, c0, c1) == 0 <==> forall r, c :: r0 <= r < r1 && c0 <= c < c1 ==> values[r][c].None?
    ensures Count(values, r0, r1, c0, c1) == 0 ==> Sum(values, r0, r1, c0, c1) == 0.0
    decreases r1
  {
    if r0 < r1 {
      CountZero(values, r0, r1 - 1, c0, c1);
      RowCountZero(values[r1 - 1], c0, c1);
    }
  }

  // ---------------------------------------------------------------- the reduced matrix

  /** How a matrix is cut: stride and number of blocks in each direction. */
  datatype Cut = Cut(rowStride: nat, columnStride: nat, rows: nat, columns: nat)

  ghost predicate CutOf(values: Cells, target: nat, cut: Cut) {
    && target > 0 && cut.rowStride > 0 && cut.columnStride > 0
    && cut.rowStride == DivideUp(|values|, target) && cut.columnStride == DivideUp(Columns(values), target)
    && cut.rows == DivideUp(|values|, cut.rowStride) && cut.columns == DivideUp(Columns(values), cut.columnStride)
  }

  ghost predicate InBlock(values: Cells, cut: Cut, b: nat, d: nat, r: nat, c: nat) {
    && r < |values| && c < Columns(values)
    && From(b, cut.rowStride) <= r < To(b, cut.rowStride, |values|)
    && From(d, cut.columnStride) <= c < To(d, cut.columnStride, Columns(values))
  }

  lemma {:induction false} BlockInside(values: Cells, target: nat, cut: Cut, b: nat, d: nat)
    requires Valid(values) && CutOf(values, target, cut) && b < cut.rows && d < cut.columns
    ensures Inside(values, From(b, cut.rowStride), To(b, cut.rowStride, |values|),
                   From(d, cut.columnStride), To(d, cut.columnStride, Columns(values)))
  {
    BlocksFollow(b, |values|, cut.rowStride);
    BlocksFollow(d, Columns(values), cut.columnStride);
    hide From, To, DivideUp;
  }

  ghost function BlockSum(values: Cells, target: nat, cut: Cut, b: nat, d: nat): real
    requires Valid(values) && CutOf(values, target, cut) && b < cut.rows && d < cut.columns
  {
    BlockInside(values, target, cut, b, d);
    Sum(values, From(b, cut.rowStride), To(b, cut.rowStride, |values|), From(d, cut.columnStride), To(d, cut.columnStride, Columns(values)))
  }

  ghost function BlockCount(values: Cells, target: nat, cut: Cut, b: nat, d: nat): nat
    requires Valid(values) && CutOf(values, target, cut) && b < cut.rows && d < cut.columns
  {
    BlockInside(values, target, cut, b, d);
    Count(values, From(b, cut.rowStride), To(b, cut.rowStride, |values|), From(d, cut.columnStride),
          To(d, cut.columnStride, Columns(values)))
  }

  function Mean(sum: real, count: nat): Option<real> {
    if count > 0 then Some(sum / count as real) else None
  }

  /** The reduced cells. */
  ghost predicate Reduces(values: Cells, target: nat, cut: Cut, result: Cells) {
    && Valid(values) && CutOf(values, target, cut)
    && |result| == cut.rows
    && (forall b :: 0 <= b < cut.rows ==> |result[b]| == cut.columns)
    && forall b, d :: 0 <= b < cut.rows && 0 <= d < cut.columns ==>
         result[b][d] == Mean(BlockSum(values, target, cut, b, d), BlockCount(values, target, cut, b, d))
  }

  /** Every cell lies in exactly one block. */
  lemma {:induction false} CellInOneBlock(values: Cells, target: nat, cut: Cut, r: nat, c: nat, b: nat, d: nat)
    requires Valid(values) && CutOf(values, target, cut) && r < |values| && c < Columns(values)
    ensures InBlock(values, cut, b, d, r, c) <==> b == r / cut.rowStride && d == c / cut.columnStride
    ensures r / cut.rowStride < cut.rows && c / cut.columnStride < cut.columns
  {
    InOneBlock(r, |values|, cut.rowStride, b);
    InOneBlock(c, Columns(values), cut.columnStride, d);
  }

  /** There are at most `target` blocks in each direction. */
  lemma {:induction false} ReducedIsSmall(values: Cells, target: nat, cut: Cut, result: Cells)
    requires Reduces(values, target, cut, result) && values != []
    ensures 0 < |result| <= target && 0 < Columns(result) <= target && Rectangular(result)
  {
    BlocksAtMostTarget(|values|, target);
    BlocksAtMostTarget(Columns(values), target);
    hide DivideUp;
  }

  ghost predicate AllMissing(values: Cells, cut: Cut, b: nat, d: nat)
    requires Rectangular(values)
  {
    forall r: nat, c: nat :: r < |values| && c < Columns(values) && InBlock(values, cut, b, d, r, c) ==> values[r][c].None?
  }

  /** A reduced cell is missing exactly when all cells of its block are. */
  lemma {:induction false} MissingIffAllMissing(values: Cells, target: nat, cut: Cut, result: Cells, b: nat, d: nat)
    requires Reduces(values, target, cut, result) && b < cut.rows && d < cut.columns
    ensures result[b][d].None? <==> AllMissing(values, cut, b, d)
  {
    BlockInside(values, target, cut, b, d);
    CountZero(values, From(b, cut.rowStride), To(b, cut.rowStride, |values|), From(d, cut.columnStride),
              To(d, cut.columnStride, Columns(values)));
    hide Sum, Count, From, To, DivideUp;
  }

  /** What a reduced cell stands for: its mean times the number of values it came from. */
  ghost function Weight(values: Cells, target: nat, cut: Cut, result: Cells, b: nat, d: nat): real
    requires Reduces(values, target, cut, result) && b < cut.rows && d < cut.columns
  {
    Value(result[b][d]) * BlockCount(values, target, cut, b, d) as real
  }

  lemma Scaled(sum: real, count: nat)
    requires count == 0 ==> sum == 0.0
    ensures Value(Mean(sum, count)) * count as real == sum
  {
  }

  lemma {:induction false} EmptyBlock(values: Cells, target: nat, cut: Cut, b: nat, d: nat)
    requires Valid(values) && CutOf(values, target, cut) && b < cut.rows && d < cut.columns
    ensures BlockCount(values, target, cut, b, d) == 0 ==> BlockSum(values, target, cut, b, d) == 0.0
  {
    BlockInside(values, target, cut, b, d);
    CountZero(values, From(b, cut.rowStride), To(b, cut.rowStride, |values|), From(d, cut.columnStride),
              To(d, cut.columnStride, Columns(values)));
    hide Sum, Count, From, To, DivideUp;
  }

  lemma {:induction false} WeightIsSum(values: Cells, target: nat, cut: Cut, result: Cells, b: nat, d: nat)
    requires Reduces(values, target, cut, result) && b < cut.rows && d < cut.columns
    ensures Weight(values, target, cut, result, b, d) == BlockSum(values, target, cut, b, d)
  {
    hide BlockSum, BlockCount, DivideUp, Mean, Value, Columns, Rectangular;
    EmptyBlock(values, target, cut, b, d);
    Scaled(BlockSum(values, target, cut, b, d), BlockCount(values, target, cut, b, d));
  }

  ghost function RowWeight(values: Cells, target: nat, cut: Cut, result: Cells, b: nat, n: nat): real
    requires Reduces(values, target, cut, result) && b < cut.rows && n <= cut.columns
  {
    if n == 0 then 0.0 else RowWeight(values, target, cut, result, b, n - 1) + Weight(values, target, cut, result, b, n - 1)
  }

  ghost function TotalWeight(values: Cells, target: nat, cut: Cut, result: Cells, n: nat): real
    requires Reduces(values, target, cut, result) && n <= cut.rows
  {
    if n == 0 then 0.0 else TotalWeight(values, target, cut, result, n - 1) + RowWeight(values, target, cut, result, n - 1, cut.columns)
  }

  ghost function Total(values: Cells): real
    requires Rectangular(values)
  {
    Sum(values, 0, |values|, 0, Columns(values))
  }

  lemma {:induction false} RowWeightIsSum(values: Cells, target: nat, cut: Cut, result: Cells, b: nat, n: nat)
    requires Reduces(values, target, cut, result) && b < cut.rows && n <= cut.columns
    ensures Inside(values, From(b, cut.rowStride), To(b, cut.rowStride, |values|), 0, AtMost(Columns(values), From(n, cut.columnStride)))
    ensures RowWeight(values, target, cut, result, b, n)
            == Sum(values, From(b, cut.rowStride), To(b, cut.rowStride, |values|), 0, AtMost(Columns(values), From(n, cut.columnStride)))
    decreases n
  {
    var r0, r1 := From(b, cut.rowStride), To(b, cut.rowStride, |values|);
    BlocksFollow(b, |values|, cut.rowStride);
    if n == 0 {
      NoColumns(values, r0, r1);
    } else {
      RowWeightIsSum(values, target, cut, result, b, n - 1);
      WeightIsSum(values, target, cut, result, b, n - 1);
      BlockInside(values, target, cut, b, n - 1);
      BlocksFollow(n - 1, Columns(values), cut.columnStride);
      hide From, DivideUp, Sum, Weight, Reduces;
      SumSplitColumns(values, r0, r1, 0, From(n - 1, cut.columnStride), To(n - 1, cut.columnStride, Columns(values)));
    }
  }

  lemma {:induction false} NoColumns(values: Cells, r0: nat, r1: nat)
    requires Rectangular(values) && r0 <= r1 <= |values|
    ensures Sum(values, r0, r1, 0, 0) == 0.0
    decreases r1
  {
    if r0 < r1 {
      NoColumns(values, r0, r1 - 1);
    }
  }

  lemma {:induction false} TotalWeightIsSum(values: Cells, target: nat, cut: Cut, result: Cells, n: nat)
    requires Reduces(values, target, cut, result) && n <= cut.rows && values != []
    ensures TotalWeight(values, target, cut, result, n) == Sum(values, 0, AtMost(|values|, From(n, cut.rowStride)), 0, Columns(values))
    decreases n
  {
    if n > 0 {
      TotalWeightIsSum(values, target, cut, result, n - 1);
      RowWeightIsSum(values, target, cut, result, n - 1, cut.columns);
      BlocksFollow(n - 1, |values|, cut.rowStride);
      LastBlockEnds(Columns(values), cut.columnStride);
      hide From, DivideUp, Sum, RowWeight;
      SumSplitRows(values, 0, From(n - 1, cut.rowStride), To(n - 1, cut.rowStride, |values|), 0, Columns(values));
    }
  }

  lemma LastBlockEnds(size: nat, stride: nat)
    requires stride > 0
    ensures AtMost(size, From(DivideUp(size, stride), stride)) == size
  {
  }

  /** Reduction conserves the total: the block means weighted by their counts add up to the
      sum of all values. */
  lemma {:induction false} TotalIsConserved(values: Cells, target: nat, cut: Cut, result: Cells)
    requires Reduces(values, target, cut, result) && values != []
    ensures TotalWeight(values, target, cut, result, cut.rows) == Total(values)
  {
    TotalWeightIsSum(values, target, cut, result, cut.rows);
    LastBlockEnds(|values|, cut.rowStride);
    hide DivideUp, From;
  }

  // ---------------------------------------------------------------- labels

  const ELLIPSIS := "\U{2026}"

  /** A block is labelled with its first and last label. */
  ghost predicate LabelsBlock(labels: seq<string>, stride: nat, b: nat, text: string) {
    var first, last := From(b, stride), To(b, stride, |labels|) - 1;
    0 <= first <= last < |labels| && text == if first == last then labels[first] else labels[first] + ELLIPSIS + labels[last]
  }

  ghost predicate LabelsBlocks(labels: seq<string>, stride: nat, result: seq<string>) {
    && stride > 0 && |result| == DivideUp(|labels|, stride)
    && forall b :: 0 <= b < |result| ==> LabelsBlock(labels, stride, b, result[b])
  }

  method AggregateLabels(labels: seq<string>, size: nat, stride: nat) returns (result: seq<string>)
    requires stride > 0
    ensures if |labels| == size then LabelsBlocks(labels, stride, result) else result == []
  {
    if |labels| != size {
      return [];
    }
    hide From, DivideUp, To, LabelsBlock;
    result := [];
    var start := 0;
    NoBlocks(size, stride);
    while start < size
      invariant start == From(|result|, stride) && |result| <= DivideUp(size, stride)
      invariant forall b :: 0 <= b < |result| ==> LabelsBlock(labels, stride, b, result[b])
      decreases size - start
    {
      var end := AtMost(size, start + stride);
      StepBlock(|result|, size, stride);
      var text := if end - start == 1 then labels[start] else labels[start] + ELLIPSIS + labels[end - 1];
      StepLabel(labels, stride, |result|, end, text);
      result := result + [text];
      start := start + stride;
    }
    AllBlocks(|result|, size, stride);
  }

  lemma NoBlocks(size: nat, stride: nat)
    requires stride > 0
    ensures From(0, stride) == 0 && DivideUp(size, stride) >= 0
  {
  }

  lemma StepLabel(labels: seq<string>, stride: nat, b: nat, end: nat, text: string)
    requires stride > 0 && From(b, stride) < |labels| && end == To(b, stride, |labels|) == AtMost(|labels|, From(b, stride) + stride)
    requires text == if end - From(b, stride) == 1 then labels[From(b, stride)]
                      else labels[From(b, stride)] + ELLIPSIS + labels[end - 1]
    ensures LabelsBlock(labels, stride, b, text)
  {
  }

  lemma StepBlock(b: nat, size: nat, stride: nat)
    requires stride > 0 && From(b, stride) < size
    ensures From(b + 1, stride) == From(b, stride) + stride
    ensures To(b, stride, size) == AtMost(size, From(b, stride) + stride)
    ensures b + 1 <= DivideUp(size, stride)
  {
    DivideUpIs(size, stride);
    LessFactor(b, DivideUp(size, stride), stride);
    hide DivideUp;
    assert (b + 1) * stride == b * stride + stride;
  }

  lemma {:induction false} AllBlocks(b: nat, size: nat, stride: nat)
    requires stride > 0 && From(b, stride) >= size && b <= DivideUp(size, stride)
    ensures b == DivideUp(size, stride)
  {
    DivideUpIs(size, stride);
    var q := DivideUp(size, stride);
    hide DivideUp;
    if q > 0 {
      LessFactor(q - 1, b, stride);
    }
  }

  // ---------------------------------------------------------------- the program

  method BlockValue(values: Cells, r0: nat, r1: nat, c0: nat, c1: nat) returns (cell: Option<real>)
    requires Inside(values, r0, r1, c0, c1)
    ensures cell == Mean(Sum(values, r0, r1, c0, c1), Count(values, r0, r1, c0, c1))
  {
    var sum := 0.0;
    var count := 0;
    for row := r0 to r1
      invariant sum == Sum(values, r0, row, c0, c1) && count == Count(values, r0, row, c0, c1)
    {
      ghost var sumBefore, countBefore := sum, count;
      for column := c0 to c1
        invariant sum == sumBefore + RowSum(values[row], c0, column)
        invariant count == countBefore + RowCount(values[row], c0, column)
      {
        if values[row][column].Some? {
          sum := sum + values[row][column].value;
          count := count + 1;
        }
      }
    }
    if count > 0 {
      return Some(sum / count as real);
    }
    return None;
  }

  method ReduceRow(values: Cells, target: nat, cut: Cut, b: nat) returns (row: seq<Option<real>>)
    requires Valid(values) && CutOf(values, target, cut) && b < cut.rows
    ensures |row| == cut.columns
    ensures forall d :: 0 <= d < cut.columns ==> row[d] == Mean(BlockSum(values, target, cut, b, d), BlockCount(values, target, cut, b, d))
  {
    row := [];
    for d := 0 to cut.columns
      invariant |row| == d
      invariant forall k :: 0 <= k < d ==> row[k] == Mean(BlockSum(values, target, cut, b, k), BlockCount(values, target, cut, b, k))
    {
      hide DivideUp, Sum, Count, Mean;
      BlockInside(values, target, cut, b, d);
      var cell := BlockValue(values, From(b, cut.rowStride), To(b, cut.rowStride, |values|),
                             From(d, cut.columnStride), To(d, cut.columnStride, Columns(values)));
      row := row + [cell];
    }
  }

  /** A heatmap larger than the target is reduced; anything else is returned as it is. */
  method ResolveResolution(item: Observation, mode: string) returns (result: Observation, resolution: Resolution, cut: Cut)
    requires Valid(item.values)
    ensures result.matrixType == item.matrixType
    ensures resolution.originalRows == |item.values| && resolution.originalColumns == Columns(item.values)
    ensures resolution.rows == |result.values| && resolution.columns == Columns(result.values)
    ensures var target := Target(item.matrixType, mode);
            resolution.aggregated <==> target > 0 && (|item.values| > target || Columns(item.values) > target)
    ensures var larger := (n: nat) => |item.values| > n || Columns(item.values) > n;
            resolution.aggregated <==>
              item.matrixType == "heatmap" && ((mode in {"auto", "64"} && larger(64)) || (mode == "32" && larger(32)))
    ensures resolution.aggregated ==> 1 <= resolution.rows <= (if mode == "32" then 32 else 64)
                                      && 1 <= resolution.columns <= (if mode == "32" then 32 else 64)
    ensures !resolution.aggregated ==> result == item
    ensures resolution.aggregated ==> Reduces(item.values, Target(item.matrixType, mode), cut, result.values)
    ensures resolution.aggregated ==>
              && (if |item.rowLabels| == |item.values| then LabelsBlocks(item.rowLabels, cut.rowStride, result.rowLabels)
                  else result.rowLabels == [])
              && (if |item.columnLabels| == Columns(item.values)
                  then LabelsBlocks(item.columnLabels, cut.columnStride, result.columnLabels)
                  else result.columnLabels == [])
  {
    var rows, columns := |item.values|, Columns(item.values);
    var target := Target(item.matrixType, mode);
    cut := Cut(0, 0, 0, 0);
    if target == 0 || (rows <= target && columns <= target) {
      return item, Resolution(false, rows, columns, rows, columns), cut;
    }
    BlocksAtMostTarget(rows, target);
    BlocksAtMostTarget(columns, target);
    var rowStride, columnStride := DivideUp(rows, target), DivideUp(columns, target);
    cut := Cut(rowStride, columnStride, DivideUp(rows, rowStride), DivideUp(columns, columnStride));
    hide DivideUp, LabelsBlocks, Target, BlockSum, BlockCount, Mean;
    var values: Cells := [];
    for b := 0 to cut.rows
      invariant |values| == b && forall k :: 0 <= k < b ==> |values[k]| == cut.columns
      invariant forall k, d :: 0 <= k < b && 0 <= d < cut.columns ==>
        values[k][d] == Mean(BlockSum(item.values, target, cut, k, d), BlockCount(item.values, target, cut, k, d))
    {
      var row := ReduceRow(item.values, target, cut, b);
      values := values + [row];
    }
    var rowLabels := AggregateLabels(item.rowLabels, rows, rowStride);
    var columnLabels := AggregateLabels(item.columnLabels, columns, columnStride);
    result := Observation(item.matrixType, values, rowLabels, columnLabels);
    resolution := Resolution(true, rows, columns, cut.rows, cut.columns);
  }
}
