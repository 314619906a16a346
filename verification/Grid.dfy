/** Packing dashboard widgets into a grid of twelve columns, first fit in reading order
    (internal/httpapi/dashboard_templates.go:605-644). */
module Grid {
  import opened Sorting

  const WIDTH := 12

  datatype Position = Position(x: int, y: int)

  datatype Size = Size(columns: int, rows: int)

  datatype Source = Source(kind: string, name: string, role: string)

  datatype Widget = Widget(id: string, position: Position, size: Size, sources: seq<Source>)

  predicate ReadsBefore(a: Widget, b: Widget) {
    if a.position.y != b.position.y then a.position.y < b.position.y else a.position.x < b.position.x
  }

  /** What dashboard validation demands of a size (internal/httpapi/dashboards.go:523-525). */
  predicate SizeOk(s: Size) {
    1 <= s.columns <= WIDTH && 1 <= s.rows <= 12
  }

  predicate Covers(p: Position, s: Size, cell: Position) {
    p.x <= cell.x < p.x + s.columns && p.y <= cell.y < p.y + s.rows
  }

  /** The cells that the widgets cover. */
  ghost predicate Taken(widgets: seq<Widget>, cell: Position) {
    exists i :: 0 <= i < |widgets| && Covers(widgets[i].position, widgets[i].size, cell)
  }

  ghost predicate Available(widgets: seq<Widget>, p: Position, s: Size) {
    forall cell :: Covers(p, s, cell) ==> !Taken(widgets, cell)
  }

  predicate InGrid(p: Position, s: Size) {
    0 <= p.x <= WIDTH - s.columns && 0 <= p.y
  }

  predicate Earlier(p: Position, q: Position) {
    p.y < q.y || (p.y == q.y && p.x < q.x)
  }

  /** The first slot in reading order that is inside the grid and free. */
  ghost predicate FirstFree(widgets: seq<Widget>, p: Position, s: Size) {
    && InGrid(p, s) && Available(widgets, p, s)
    && forall q :: Earlier(q, p) && InGrid(q, s) ==> !Available(widgets, q, s)
  }

  /** Each widget, in turn, took the first free slot; nothing else about it changed. */
  ghost predicate Packed(ordered: seq<Widget>, result: seq<Widget>) {
    && |result| == |ordered|
    && forall i :: 0 <= i < |result| ==>
         result[i] == ordered[i].(position := result[i].position) && FirstFree(result[..i], result[i].position, result[i].size)
  }

  // ---------------------------------------------------------------- what packing means

  /** There is only one packing. */
  lemma {:induction false} PackedIsUnique(ordered: seq<Widget>, a: seq<Widget>, b: seq<Widget>, n: nat)
    requires Packed(ordered, a) && Packed(ordered, b) && n <= |ordered|
    ensures a[..n] == b[..n]
    decreases n
  {
    hide FirstFree;
    if n > 0 {
      PackedIsUnique(ordered, a, b, n - 1);
      var p, q := a[n - 1].position, b[n - 1].position;
      assert FirstFree(a[..n - 1], p, a[n - 1].size) && FirstFree(b[..n - 1], q, b[n - 1].size);
      SameFirst(a[..n - 1], p, q, a[n - 1].size);
      assert a[..n] == a[..n - 1] + [a[n - 1]] && b[..n] == b[..n - 1] + [b[n - 1]];
    }
  }

  lemma SameFirst(widgets: seq<Widget>, p: Position, q: Position, s: Size)
    requires FirstFree(widgets, p, s) && FirstFree(widgets, q, s)
    ensures p == q
  {
  }

  /** Packed widgets lie inside the grid and no two of them overlap. */
  lemma PackedIsDisjoint(ordered: seq<Widget>, result: seq<Widget>, i: nat, j: nat, cell: Position)
    requires Packed(ordered, result) && i < j < |result|
    ensures InGrid(result[j].position, result[j].size) && InGrid(result[i].position, result[i].size)
    ensures !(Covers(result[i].position, result[i].size, cell) && Covers(result[j].position, result[j].size, cell))
  {
  }

  function Height(widgets: seq<Widget>): int {
    if widgets == [] then 0 else Height(widgets[..|widgets| - 1]) + widgets[|widgets| - 1].size.rows
  }

  ghost predicate Below(widgets: seq<Widget>, y: int) {
    forall i :: 0 <= i < |widgets| ==> widgets[i].position.y + widgets[i].size.rows <= y
  }

  /** Underneath all widgets there is room. */
  lemma FreeBelow(widgets: seq<Widget>, y: int, s: Size)
    requires Below(widgets, y)
    ensures Available(widgets, Position(0, y), s)
  {
  }

  /** The packing is no higher than the widgets stacked on each other. */
  lemma {:induction false} PackedHeight(ordered: seq<Widget>, result: seq<Widget>, n: nat)
    requires Packed(ordered, result) && n <= |result|
    requires forall i :: 0 <= i < |ordered| ==> SizeOk(ordered[i].size)
    ensures Below(result[..n], Height(ordered[..n])) && Height(ordered[..n]) >= 0
    ensures n < |result| ==> result[n].position.y <= Height(ordered[..n])
    decreases n
  {
    hide SizeOk, Covers, Taken;
    if n > 0 {
      PackedHeight(ordered, result, n - 1);
      assert ordered[..n][..n - 1] == ordered[..n - 1];
      assert SizeOk(ordered[n - 1].size);
      RowsPositive(ordered[n - 1].size);
      assert result[..n] == result[..n - 1] + [result[n - 1]];
    }
    if n < |result| {
      NoLowerThanFree(ordered, result, n);
    }
  }

  lemma RowsPositive(s: Size)
    requires SizeOk(s)
    ensures 1 <= s.rows <= 12 && 0 <= WIDTH - s.columns
  {
  }

  lemma NoLowerThanFree(ordered: seq<Widget>, result: seq<Widget>, n: nat)
    requires Packed(ordered, result) && n < |result| && SizeOk(ordered[n].size)
    requires Below(result[..n], Height(ordered[..n])) && Height(ordered[..n]) >= 0
    ensures result[n].position.y <= Height(ordered[..n])
  {
    var size := result[n].size;
    assert FirstFree(result[..n], result[n].position, size) && size == ordered[n].size;
    hide Packed, Available, Height;
    FreeBelow(result[..n], Height(ordered[..n]), size);
    assert InGrid(Position(0, Height(ordered[..n])), size);
  }

  lemma {:induction false} HeightAtMost(widgets: seq<Widget>)
    requires forall i :: 0 <= i < |widgets| ==> SizeOk(widgets[i].size)
    ensures Height(widgets) <= 12 * |widgets|
    decreases |widgets|
  {
    if widgets != [] {
      HeightAtMost(widgets[..|widgets| - 1]);
      assert SizeOk(widgets[|widgets| - 1].size);
    }
  }

  /** Up to 64 widgets of valid size stay within the limits that dashboard validation sets for positions. */
  lemma PackedIsValid(ordered: seq<Widget>, result: seq<Widget>, i: nat)
    requires Packed(ordered, result) && i < |result| <= 64
    requires forall k :: 0 <= k < |ordered| ==> SizeOk(ordered[k].size)
    ensures 0 <= result[i].position.x <= 11 && 0 <= result[i].position.y <= 4096
  {
    PackedHeight(ordered, result, i);
    HeightAtMost(ordered[..i]);
    assert SizeOk(ordered[i].size);
    assert FirstFree(result[..i], result[i].position, result[i].size);
    hide Available, Below, Height;
  }

  lemma ReadsBeforeIsOrder()
    ensures StrictOrder(ReadsBefore)
  {
  }

  /** Sorting into reading order loses and adds nothing, and widgets at the same position keep their order. */
  lemma ReadingOrder(widgets: seq<Widget>, w: Widget)
    ensures Sorted(Sort(widgets, ReadsBefore), ReadsBefore) && multiset(Sort(widgets, ReadsBefore)) == multiset(widgets)
    ensures Ties(Sort(widgets, ReadsBefore), w, ReadsBefore) == Ties(widgets, w, ReadsBefore)
  {
    ReadsBeforeIsOrder();
    hide ReadsBefore;
    SortSorts(widgets, ReadsBefore);
    SortKeepsElements(widgets, ReadsBefore);
    SortIsStable(widgets, w, ReadsBefore);
  }

  // ---------------------------------------------------------------- the program

  ghost predicate Marks(occupied: set<Position>, widgets: seq<Widget>) {
    forall cell :: cell in occupied <==> Taken(widgets, cell)
  }

  method AreaAvailable(occupied: set<Position>, x: int, y: int, size: Size, ghost widgets: seq<Widget>) returns (free: bool)
    requires Marks(occupied, widgets)
    ensures free == Available(widgets, Position(x, y), size)
  {
    hide Taken;
    var row := y;
    while row < y + size.rows
      invariant y <= row
      invariant forall cell :: Covers(Position(x, y), size, cell) && cell.y < row ==> !Taken(widgets, cell)
      decreases y + size.rows - row
    {
      var column := x;
      while column < x + size.columns
        invariant x <= column
        invariant forall cell :: Covers(Position(x, y), size, cell) && cell.y == row && cell.x < column ==> !Taken(widgets, cell)
        decreases x + size.columns - column
      {
        if Position(column, row) in occupied {
          assert Covers(Position(x, y), size, Position(column, row));
          return false;
        }
        column := column + 1;
      }
      row := row + 1;
    }
    return true;
  }

  method Occupy(occupied: set<Position>, w: Widget, ghost widgets: seq<Widget>) returns (more: set<Position>)
    requires Marks(occupied, widgets)
    ensures Marks(more, widgets + [w])
  {
    more := occupied;
    var p, s := w.position, w.size;
    hide Taken;
    var row := p.y;
    while row < p.y + s.rows
      invariant p.y <= row
      invariant forall cell :: cell in more <==> cell in occupied || (Covers(p, s, cell) && cell.y < row)
      decreases p.y + s.rows - row
    {
      var column := p.x;
      while column < p.x + s.columns
        invariant p.x <= column
        invariant forall cell :: cell in more <==>
                    cell in occupied || (Covers(p, s, cell) && (cell.y < row || (cell.y == row && cell.x < column)))
        decreases p.x + s.columns - column
      {
        more := more + {Position(column, row)};
        column := column + 1;
      }
      row := row + 1;
    }
    forall cell ensures Taken(widgets + [w], cell) <==> Taken(widgets, cell) || Covers(p, s, cell) {
      TakenMore(widgets, w, cell);
    }
  }

  lemma TakenMore(widgets: seq<Widget>, w: Widget, cell: Position)
    ensures Taken(widgets + [w], cell) <==> Taken(widgets, cell) || Covers(w.position, w.size, cell)
  {
    var all := widgets + [w];
    if Taken(widgets, cell) {
      var i :| 0 <= i < |widgets| && Covers(widgets[i].position, widgets[i].size, cell);
      assert all[i] == widgets[i];
    }
    if Covers(w.position, w.size, cell) {
      assert all[|widgets|] == w;
    }
  }

  /** The search over rows ends at the latest below everything placed so far. */
  method FindSlot(occupied: set<Position>, size: Size, ghost widgets: seq<Widget>, ghost height: nat) returns (p: Position)
    requires SizeOk(size) && Marks(occupied, widgets) && Below(widgets, height)
    ensures FirstFree(widgets, p, size)
  {
    hide Available, Below, Marks;
    FreeBelow(widgets, height, size);
    var y := 0;
    while true
      invariant 0 <= y <= height
      invariant forall q: Position :: q.y < y && InGrid(q, size) ==> !Available(widgets, q, size)
      decreases height - y
    {
      var x := 0;
      while x <= WIDTH - size.columns
        invariant 0 <= x
        invariant forall q: Position :: q.y == y && q.x < x && InGrid(q, size) ==> !Available(widgets, q, size)
        decreases WIDTH - size.columns - x
      {
        var free := AreaAvailable(occupied, x, y, size, widgets);
        if free {
          return Position(x, y);
        }
        x := x + 1;
      }
      assert InGrid(Position(0, y), size);
      y := y + 1;
    }
  }

  /** Sorts the widgets into reading order and moves each to the first free slot. */
  method CompactWidgets(widgets: seq<Widget>) returns (ordered: seq<Widget>)
    requires forall i :: 0 <= i < |widgets| ==> SizeOk(widgets[i].size)
    ensures Packed(Sort(widgets, ReadsBefore), ordered)
    ensures |ordered| == |widgets|
    ensures forall i :: 0 <= i < |ordered| ==> InGrid(ordered[i].position, ordered[i].size) && ordered[i].position.y <= 12 * i
  {
    hide Marks, FirstFree, Packed, Sort, Height, Below, SizeOk, InGrid;
    ghost var sorted := Sort(widgets, ReadsBefore);
    SortKeepsElements(widgets, ReadsBefore);
    SortedSizes(widgets);
    NothingPlaced();
    ordered := Sort(widgets, ReadsBefore);
    var occupied: set<Position> := {};
    for index := 0 to |ordered|
      invariant |ordered| == |sorted|
      invariant forall i :: index <= i < |ordered| ==> ordered[i] == sorted[i]
      invariant Packed(sorted[..index], ordered[..index])
      invariant Marks(occupied, ordered[..index])
    {
      PackedSize(sorted[..index], ordered[..index]);
      PackedHeight(sorted[..index], ordered[..index], index);
      HeightSame(sorted, ordered, index);
      var p := FindSlot(occupied, ordered[index].size, ordered[..index], Height(sorted[..index]));
      ghost var before := ordered[..index];
      ordered := ordered[index := ordered[index].(position := p)];
      assert ordered[..index] == before;
      occupied := Occupy(occupied, ordered[index], before);
      assert ordered[..index + 1] == before + [ordered[index]] && sorted[..index + 1] == sorted[..index] + [sorted[index]];
      PackOneMore(sorted[..index], before, sorted[index], ordered[index]);
    }
    assert sorted[..|sorted|] == sorted && ordered[..|ordered|] == ordered;
    PackedLow(sorted, ordered);
  }

  lemma NothingPlaced()
    ensures Packed([], []) && Marks({}, [])
  {
  }

  lemma PackedSize(ordered: seq<Widget>, result: seq<Widget>)
    requires Packed(ordered, result)
    ensures |result| == |ordered|
  {
  }

  lemma PackedLow(ordered: seq<Widget>, result: seq<Widget>)
    requires Packed(ordered, result) && forall i :: 0 <= i < |ordered| ==> SizeOk(ordered[i].size)
    ensures |result| == |ordered|
    ensures forall i :: 0 <= i < |result| ==> InGrid(result[i].position, result[i].size) && result[i].position.y <= 12 * i
  {
    hide Height, Below, SizeOk, Available;
    forall i | 0 <= i < |result| ensures InGrid(result[i].position, result[i].size) && result[i].position.y <= 12 * i {
      PackedHeight(ordered, result, i);
      HeightAtMost(ordered[..i]);
      assert FirstFree(result[..i], result[i].position, result[i].size);
    }
  }

  lemma HeightSame(sorted: seq<Widget>, ordered: seq<Widget>, index: nat)
    requires index <= |sorted| == |ordered|
    ensures sorted[..index][..index] == sorted[..index] && ordered[..index][..index] == ordered[..index]
  {
  }

  lemma SortedSizes(widgets: seq<Widget>)
    requires forall i :: 0 <= i < |widgets| ==> SizeOk(widgets[i].size)
    ensures forall i :: 0 <= i < |Sort(widgets, ReadsBefore)| ==> SizeOk(Sort(widgets, ReadsBefore)[i].size)
  {
    var sorted := Sort(widgets, ReadsBefore);
    SortKeepsElements(widgets, ReadsBefore);
    forall i | 0 <= i < |sorted| ensures SizeOk(sorted[i].size) {
      InMultiset(sorted, sorted[i]);
      InMultiset(widgets, sorted[i]);
    }
  }

  lemma PackOneMore(ordered: seq<Widget>, result: seq<Widget>, w: Widget, placed: Widget)
    requires Packed(ordered, result) && placed == w.(position := placed.position)
    requires FirstFree(result, placed.position, placed.size)
    ensures Packed(ordered + [w], result + [placed])
  {
    hide FirstFree;
    var all := result + [placed];
    forall i | 0 <= i < |all| ensures FirstFree(all[..i], all[i].position, all[i].size) {
      if i < |result| {
        assert all[..i] == result[..i];
      } else {
        assert all[..i] == result;
      }
    }
  }

  /** In coordinates: packed widgets keep to the twelve columns and lie beside or below each other, and
      nothing could be moved up, or left in its row, without leaving the grid or meeting one placed before. */
  lemma {:induction false} PackedInCoordinates(ordered: seq<Widget>, result: seq<Widget>, i: nat)
    requires Packed(ordered, result) && i < |result| && forall k :: 0 <= k < |ordered| ==> SizeOk(ordered[k].size)
    ensures var p, s := result[i].position, result[i].size;
            && 0 <= p.x && p.x + s.columns <= 12 && 0 <= p.y
            && (forall k :: 0 <= k < i ==> Apart(result[k].position, result[k].size, p, s))
            && (forall x: int, y: int :: 0 <= x && x + s.columns <= 12 && 0 <= y && (y < p.y || (y == p.y && x < p.x)) ==>
                  MeetsEarlier(result, i, x, y))
  {
    var p, s := result[i].position, result[i].size;
    assert FirstFree(result[..i], p, s);
    forall q: Position
      ensures Available(result[..i], q, s) <==> forall k :: 0 <= k < i ==> Apart(result[k].position, result[k].size, q, s)
    {
      AvailableIff(ordered, result, i, q);
    }
    hide Available, Packed, Apart, SizeOk;
    forall x: int, y: int | 0 <= x && x + s.columns <= 12 && 0 <= y && (y < p.y || (y == p.y && x < p.x))
      ensures MeetsEarlier(result, i, x, y)
    {
      assert Earlier(Position(x, y), p) && InGrid(Position(x, y), s);
    }
  }

  /** Widget `i` moved to (x, y) would lie on one placed before it. */
  ghost predicate MeetsEarlier(result: seq<Widget>, i: nat, x: int, y: int)
    requires i < |result|
  {
    exists k :: 0 <= k < i && !Apart(result[k].position, result[k].size, Position(x, y), result[i].size)
  }

  /** One ends where the other begins, or before. */
  predicate Apart(p: Position, s: Size, q: Position, t: Size) {
    p.x + s.columns <= q.x || q.x + t.columns <= p.x || p.y + s.rows <= q.y || q.y + t.rows <= p.y
  }

  lemma ApartIff(p: Position, s: Size, q: Position, t: Size)
    requires s.columns > 0 && s.rows > 0 && t.columns > 0 && t.rows > 0
    ensures Apart(p, s, q, t) <==> forall cell :: !(Covers(p, s, cell) && Covers(q, t, cell))
  {
    var cell := Position(if p.x < q.x then q.x else p.x, if p.y < q.y then q.y else p.y);
    if !Apart(p, s, q, t) {
      assert Covers(p, s, cell) && Covers(q, t, cell);
    }
  }

  lemma AvailableIff(ordered: seq<Widget>, result: seq<Widget>, i: nat, q: Position)
    requires Packed(ordered, result) && i < |result| && forall k :: 0 <= k < |ordered| ==> SizeOk(ordered[k].size)
    ensures Available(result[..i], q, result[i].size)
            <==> forall k :: 0 <= k < i ==> Apart(result[k].position, result[k].size, q, result[i].size)
  {
    forall k | 0 <= k <= i ensures result[k].size.columns > 0 && result[k].size.rows > 0 {
      assert SizeOk(ordered[k].size);
    }
    hide Packed, SizeOk;
    var s := result[i].size;
    forall k | 0 <= k < i
      ensures Apart(result[k].position, result[k].size, q, s)
              <==> forall cell :: !(Covers(result[k].position, result[k].size, cell) && Covers(q, s, cell))
    {
      ApartIff(result[k].position, result[k].size, q, s);
    }
    hide Apart, Covers;
    if !Available(result[..i], q, s) {
      var cell :| Covers(q, s, cell) && Taken(result[..i], cell);
      var k :| 0 <= k < i && Covers(result[..i][k].position, result[..i][k].size, cell);
      assert !Apart(result[k].position, result[k].size, q, s);
    }
    if k :| 0 <= k < i && !Apart(result[k].position, result[k].size, q, s) {
      var cell :| Covers(result[k].position, result[k].size, cell) && Covers(q, s, cell);
      assert Covers(result[..i][k].position, result[..i][k].size, cell);
      assert Taken(result[..i], cell);
    }
  }

  /** The reading order is row by row, and from left to right in a row. */
  lemma ReadsInRows(widgets: seq<Widget>, i: nat, k: nat)
    requires i < k < |Sort(widgets, ReadsBefore)|
    ensures var p, q := Sort(widgets, ReadsBefore)[i].position, Sort(widgets, ReadsBefore)[k].position;
            p.y < q.y || (p.y == q.y && p.x <= q.x)
  {
    ReadsBeforeIsOrder();
    SortSorts(widgets, ReadsBefore);
    assert !ReadsBefore(Sort(widgets, ReadsBefore)[k], Sort(widgets, ReadsBefore)[i]);
  }
}
