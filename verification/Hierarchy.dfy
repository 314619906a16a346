/** Checking that the rows of a hierarchy table form a forest
    (internal/httpapi/tables.go:221-229, 271-304). */
module Hierarchy {
  import opened Domain

  /** A row; a cell that is missing or of another type is None. */
  datatype Row = Row(id: Option<string>, parent: Option<string>, value: Option<real>)

  datatype Colour = Grey | Black

  // ---------------------------------------------------------------- what a forest is

  predicate CellsOk(r: Row) {
    r.id.Some? && r.id.value != "" && r.parent.Some? && r.value.Some? && r.value.value >= 0.0
  }

  ghost predicate RowsOk(rows: seq<Row>) {
    && (forall i :: 0 <= i < |rows| ==> CellsOk(rows[i]))
    && (forall i, j :: 0 <= i < j < |rows| ==> rows[i].id != rows[j].id)
  }

  /** Each id with its parent; a root has the empty parent. */
  function Parents(rows: seq<Row>): map<string, string>
    requires forall i :: 0 <= i < |rows| ==> CellsOk(rows[i])
  {
    if rows == [] then map[]
    else
      var last := rows[|rows| - 1];
      assert CellsOk(last);
      Parents(rows[..|rows| - 1])[last.id.value := last.parent.value]
  }

  ghost predicate Known(parents: map<string, string>) {
    forall id :: id in parents && parents[id] != "" ==> parents[id] in parents
  }

  /** Following parent links from `a` leads to `b` in `k` steps. */
  ghost predicate Leads(parents: map<string, string>, a: string, b: string, k: nat)
    decreases k
  {
    if k == 0 then a == b else a in parents && parents[a] != "" && Leads(parents, parents[a], b, k - 1)
  }

  ghost predicate LeadsUp(parents: map<string, string>, a: string, b: string) {
    exists k: nat :: k > 0 && Leads(parents, a, b, k)
  }

  ghost predicate RootAfter(parents: map<string, string>, id: string, n: nat)
    decreases n
  {
    id in parents && (if n == 0 then parents[id] == "" else parents[id] != "" && RootAfter(parents, parents[id], n - 1))
  }

  ghost predicate ReachesRoot(parents: map<string, string>, id: string) {
    exists n: nat :: RootAfter(parents, id, n)
  }

  /** The row sets that are accepted. */
  ghost predicate IsForest(rows: seq<Row>) {
    && rows != [] && RowsOk(rows) && Known(Parents(rows))
    && forall id :: id in Parents(rows) ==> ReachesRoot(Parents(rows), id)
  }

  // ---------------------------------------------------------------- cycles

  lemma {:induction false} LeadsThenRoot(parents: map<string, string>, a: string, b: string, k: nat, n: nat)
    requires Leads(parents, a, b, k) && RootAfter(parents, a, n)
    ensures k <= n && RootAfter(parents, b, n - k)
    decreases k
  {
    if k > 0 {
      LeadsThenRoot(parents, parents[a], b, k - 1, n - 1);
    }
  }

  lemma {:induction false} NoRootOnCycle(parents: map<string, string>, id: string, k: nat, n: nat)
    requires k > 0 && Leads(parents, id, id, k)
    ensures !RootAfter(parents, id, n)
    decreases n
  {
    if RootAfter(parents, id, n) {
      LeadsThenRoot(parents, id, id, k, n);
      NoRootOnCycle(parents, id, k, n - k);
    }
  }

  lemma CycleMissesRoot(parents: map<string, string>, id: string, k: nat)
    requires k > 0 && Leads(parents, id, id, k)
    ensures !ReachesRoot(parents, id)
  {
    forall n: nat ensures !RootAfter(parents, id, n) {
      NoRootOnCycle(parents, id, k, n);
    }
  }

  lemma {:induction false} LeadsOn(parents: map<string, string>, a: string, b: string, k: nat)
    requires Leads(parents, a, b, k) && b in parents && parents[b] != ""
    ensures Leads(parents, a, parents[b], k + 1)
    decreases k
  {
    if k > 0 {
      LeadsOn(parents, parents[a], b, k - 1);
    } else {
      assert Leads(parents, parents[b], parents[b], 0);
    }
  }

  /** An inner node reaches a root exactly when its parent does. */
  lemma RootThroughParent(parents: map<string, string>, id: string)
    requires id in parents && parents[id] != ""
    ensures ReachesRoot(parents, id) <==> ReachesRoot(parents, parents[id])
  {
    if ReachesRoot(parents, id) {
      var n: nat :| RootAfter(parents, id, n);
      assert RootAfter(parents, parents[id], n - 1);
    }
    if ReachesRoot(parents, parents[id]) {
      var n: nat :| RootAfter(parents, parents[id], n);
      assert RootAfter(parents, id, n + 1);
    }
  }

  /** The separate test that there is a root is implied. */
  lemma {:induction false} RootExists(parents: map<string, string>, id: string, n: nat)
    requires RootAfter(parents, id, n)
    ensures exists r :: r in parents && parents[r] == ""
    decreases n
  {
    if n > 0 {
      RootExists(parents, parents[id], n - 1);
    }
  }

  lemma {:induction false} ParentsHas(rows: seq<Row>, i: nat)
    requires RowsOk(rows) && i < |rows|
    ensures rows[i].id.value in Parents(rows) && Parents(rows)[rows[i].id.value] == rows[i].parent.value
    decreases |rows|
  {
    if i < |rows| - 1 {
      ParentsHas(rows[..|rows| - 1], i);
    }
  }

  lemma {:induction false} ParentsFrom(rows: seq<Row>, id: string)
    requires forall i :: 0 <= i < |rows| ==> CellsOk(rows[i])
    requires id in Parents(rows)
    ensures exists i :: 0 <= i < |rows| && rows[i].id == Some(id)
    decreases |rows|
  {
    if rows[|rows| - 1].id.value == id {
      assert rows[|rows| - 1].id == Some(id);
    } else {
      ParentsFrom(rows[..|rows| - 1], id);
      var i :| 0 <= i < |rows| - 1 && rows[..|rows| - 1][i].id == Some(id);
      assert rows[i].id == Some(id);
    }
  }

  // ---------------------------------------------------------------- the search

  /** The colours of a depth-first search along parent links. */
  class Search {
    const parents: map<string, string>
    var state: map<string, Colour>

    constructor (parents: map<string, string>)
      ensures this.parents == parents && state == map[]
    {
      this.parents := parents;
      state := map[];
    }

    ghost predicate Valid()
      reads this
    {
      && Known(parents) && state.Keys <= parents.Keys
      && forall b :: b in state && state[b] == Black ==> ReachesRoot(parents, b)
    }

    /** Every node on the current path leads to `id`. */
    ghost predicate PathTo(id: string)
      reads this
    {
      forall g :: g in state && state[g] == Grey ==> LeadsUp(parents, g, id)
    }

    /** Follows parent links from `id`; nodes found to reach a root are not visited again. */
    method Cyclic(id: string) returns (cyclic: bool)
      requires Valid() && id in parents && PathTo(id)
      modifies this`state
      ensures cyclic <==> !ReachesRoot(parents, id)
      ensures !cyclic ==> Valid() && id in state && old(state).Keys <= state.Keys
      ensures !cyclic ==> forall g :: (g in state && state[g] == Grey) <==> (g in old(state) && old(state)[g] == Grey)
      decreases parents.Keys - state.Keys
    {
      if id in state && state[id] == Grey {
        ghost var k: nat :| k > 0 && Leads(parents, id, id, k);
        CycleMissesRoot(parents, id, k);
        return true;
      }
      if id in state && state[id] == Black {
        return false;
      }
      ghost var before := state;
      assert id !in before;
      state := state[id := Grey];
      var parent := parents[id];
      if parent != "" {
        RootThroughParent(parents, id);
        PathGrows(id, before);
        assert state.Keys == before.Keys + {id};
        var above := Cyclic(parent);
        if above {
          return true;
        }
      } else {
        assert RootAfter(parents, id, 0);
      }
      state := state[id := Black];
      return false;
    }

    /** The path extended by `id` leads to its parent. */
    lemma PathGrows(id: string, before: map<string, Colour>)
      requires id in parents && parents[id] != "" && state == before[id := Grey]
      requires forall g :: g in before && before[g] == Grey ==> LeadsUp(parents, g, id)
      ensures PathTo(parents[id])
    {
      forall g | g in state && state[g] == Grey ensures LeadsUp(parents, g, parents[id]) {
        if g == id {
          assert Leads(parents, id, id, 0);
          LeadsOn(parents, id, id, 0);
        } else {
          var k: nat :| k > 0 && Leads(parents, g, id, k);
          LeadsOn(parents, g, id, k);
        }
      }
    }
  }

  // ---------------------------------------------------------------- the check

  /** Reads the rows; None if one of them is malformed or repeats an id. */
  method ReadRows(rows: seq<Row>) returns (parents: Option<map<string, string>>)
    ensures parents.Some? <==> RowsOk(rows)
    ensures parents.Some? ==> parents.value == Parents(rows)
  {
    var found: map<string, string> := map[];
    for i := 0 to |rows|
      invariant RowsOk(rows[..i]) && found == Parents(rows[..i])
    {
      var r := rows[i];
      assert rows[..i + 1][..i] == rows[..i];
      if !CellsOk(r) || r.id.value in found {
        if CellsOk(r) {
          ParentsFrom(rows[..i], r.id.value);
        }
        return None;
      }
      forall k | 0 <= k < i ensures rows[k].id != r.id {
        ParentsHas(rows[..i], k);
      }
      found := found[r.id.value := r.parent.value];
    }
    assert rows[..|rows|] == rows;
    return Some(found);
  }

  /** Counts the roots; None if some parent is unknown. */
  method CountRoots(parents: map<string, string>) returns (roots: Option<nat>)
    ensures roots.Some? <==> Known(parents)
    ensures roots.Some? ==> (roots.value > 0 <==> exists r :: r in parents && parents[r] == "")
  {
    var count := 0;
    var rest := parents.Keys;
    while rest != {}
      invariant rest <= parents.Keys
      invariant forall id :: id in parents && id !in rest && parents[id] != "" ==> parents[id] in parents
      invariant count > 0 <==> exists r :: r in parents && r !in rest && parents[r] == ""
      decreases rest
    {
      var id :| id in rest;
      rest := rest - {id};
      if parents[id] == "" {
        count := count + 1;
      } else if parents[id] !in parents {
        return None;
      }
    }
    return Some(count);
  }

  /** Accepts exactly the forests. */
  method ValidHierarchy(rows: seq<Row>) returns (ok: bool)
    ensures ok <==> IsForest(rows)
  {
    var read := ReadRows(rows);
    if read.None? {
      return false;
    }
    var parents := read.value;
    var roots := CountRoots(parents);
    if roots.None? {
      return false;
    }
    if roots.value == 0 {
      NoRootNoForest(rows);
      return false;
    }
    var search := new Search(parents);
    var rest := parents.Keys;
    while rest != {}
      invariant search.parents == parents && search.Valid() && rest <= parents.Keys
      invariant forall g :: g in search.state ==> search.state[g] == Black
      invariant forall id :: id in parents && id !in rest ==> ReachesRoot(parents, id)
      decreases rest
    {
      var id :| id in rest;
      rest := rest - {id};
      var cyclic := search.Cyclic(id);
      if cyclic {
        return false;
      }
    }
    assert rows != [];
    return true;
  }

  lemma NoRootNoForest(rows: seq<Row>)
    requires RowsOk(rows) && !exists r :: r in Parents(rows) && Parents(rows)[r] == ""
    ensures !IsForest(rows)
  {
    if rows != [] {
      ParentsHas(rows, 0);
      var id := rows[0].id.value;
      if ReachesRoot(Parents(rows), id) {
        var n: nat :| RootAfter(Parents(rows), id, n);
        RootExists(Parents(rows), id, n);
      }
    }
  }

  // ---------------------------------------------------------------- forests and cycles

  /** Nobody is their own ancestor. */
  ghost predicate Acyclic(parents: map<string, string>) {
    forall id :: !LeadsUp(parents, id, id)
  }

  /** Going up from `a`, having come by way of `visited`. */
  lemma {:induction false} GoingUp(parents: map<string, string>, a: string, visited: set<string>)
    requires Known(parents) && Acyclic(parents) && a in parents && visited <= parents.Keys
    requires forall v :: v in visited ==> LeadsUp(parents, v, a)
    ensures ReachesRoot(parents, a)
    decreases parents.Keys - visited
  {
    hide Leads;
    assert a !in visited;
    if parents[a] == "" {
      assert RootAfter(parents, a, 0);
    } else {
      var b := parents[a];
      forall v | v in visited + {a} ensures LeadsUp(parents, v, b) {
        var k: nat := 0;
        if v != a {
          k :| k > 0 && Leads(parents, v, a, k);
        } else {
          LeadsNowhere(parents, a);
        }
        LeadsOn(parents, v, a, k);
      }
      GoingUp(parents, b, visited + {a});
      RootThroughParent(parents, a);
    }
  }

  lemma LeadsNowhere(parents: map<string, string>, a: string)
    ensures Leads(parents, a, a, 0)
  {
  }

  /** Rows are accepted exactly if there are some, each has an id of its own, a parent and a value that
      is not negative, every parent named is there, and nobody is their own ancestor. */
  lemma {:induction false} ForestIff(rows: seq<Row>)
    ensures IsForest(rows) <==>
              && rows != []
              && (forall i :: 0 <= i < |rows| ==>
                    && rows[i].id.Some? && |rows[i].id.value| > 0 && rows[i].parent.Some?
                    && rows[i].value.Some? && 0.0 <= rows[i].value.value)
              && (forall i, k :: 0 <= i < k < |rows| ==> rows[i].id != rows[k].id)
              && (forall i :: 0 <= i < |rows| && rows[i].parent != Some("") ==> exists k :: 0 <= k < |rows| && rows[k].id == rows[i].parent)
              && Acyclic(Parents(rows))
  {
    hide ReachesRoot, LeadsUp, Parents;
    if RowsOk(rows) {
      forall i | 0 <= i < |rows| ensures rows[i].id.value in Parents(rows) && Parents(rows)[rows[i].id.value] == rows[i].parent.value {
        ParentsHas(rows, i);
      }
      forall id | id in Parents(rows) ensures exists k :: 0 <= k < |rows| && rows[k].id == Some(id) {
        ParentsFrom(rows, id);
      }
      KnownIff(rows);
      hide Known;
      if Known(Parents(rows)) {
        RootsIffAcyclic(Parents(rows));
      }
    }
  }

  lemma KnownIff(rows: seq<Row>)
    requires RowsOk(rows)
    requires forall i :: 0 <= i < |rows| ==> rows[i].id.value in Parents(rows) && Parents(rows)[rows[i].id.value] == rows[i].parent.value
    requires forall id :: id in Parents(rows) ==> exists k :: 0 <= k < |rows| && rows[k].id == Some(id)
    ensures Known(Parents(rows)) <==>
              forall i :: 0 <= i < |rows| && rows[i].parent != Some("") ==> exists k :: 0 <= k < |rows| && rows[k].id == rows[i].parent
  {
    hide Parents;
    var parents := Parents(rows);
    if Known(parents) {
      forall i | 0 <= i < |rows| && rows[i].parent != Some("") ensures exists k :: 0 <= k < |rows| && rows[k].id == rows[i].parent {
        assert parents[rows[i].id.value] in parents;
      }
    } else {
      var id :| id in parents && parents[id] != "" && parents[id] !in parents;
      var i :| 0 <= i < |rows| && rows[i].id == Some(id);
      assert rows[i].parent == Some(parents[id]);
      assert forall k :: 0 <= k < |rows| ==> rows[k].id != rows[i].parent;
    }
  }

  /** With all parents known, everybody reaches a root if and only if there is no cycle. */
  lemma RootsIffAcyclic(parents: map<string, string>)
    requires Known(parents)
    ensures (forall id :: id in parents ==> ReachesRoot(parents, id)) <==> Acyclic(parents)
  {
    hide ReachesRoot, Leads, Known;
    if Acyclic(parents) {
      forall id | id in parents ensures ReachesRoot(parents, id) {
        GoingUp(parents, id, {});
      }
    } else {
      var id :| LeadsUp(parents, id, id);
      var k: nat :| k > 0 && Leads(parents, id, id, k);
      CycleMissesRoot(parents, id, k);
      OnCycleIsThere(parents, id, k);
    }
  }

  lemma OnCycleIsThere(parents: map<string, string>, id: string, k: nat)
    requires k > 0 && Leads(parents, id, id, k)
    ensures id in parents
  {
  }
}
