/** The trees that are built from a task array are the only ones with the array's edges in the array's order. */
module TreeShape {
  import opened Prelude
  import opened TaskForest

  /** The rows with that parent, in array order. */
  function WithParent(rows: seq<Row>, parent: Option<Id>): seq<Row> {
    if rows == [] then []
    else WithParent(rows[..|rows| - 1], parent) + if rows[|rows| - 1].parent == parent then [rows[|rows| - 1]] else []
  }

  /** The tasks at the top of the trees. */
  function Tops(trees: seq<Tree<Row>>): seq<Row> {
    if trees == [] then [] else [trees[0].task] + Tops(trees[1..])
  }

  /** At every node the children are the rows that name it as their parent, in array order. */
  ghost predicate HasEdges(t: Tree<Row>, rows: seq<Row>)
    decreases t, 0
  {
    Tops(t.children) == WithParent(rows, Some(t.task.id)) && AllHaveEdges(t.children, rows)
  }

  ghost predicate AllHaveEdges(trees: seq<Tree<Row>>, rows: seq<Row>)
    decreases trees
  {
    trees != [] ==> HasEdges(trees[0], rows) && AllHaveEdges(trees[1..], rows)
  }

  /** The edges determine the tree. */
  lemma {:induction false} EdgesDetermine(t: Tree<Row>, u: Tree<Row>, rows: seq<Row>)
    requires t.task == u.task && HasEdges(t, rows) && HasEdges(u, rows)
    ensures t == u
    decreases t, 0
  {
    AllEdgesDetermine(t.children, u.children, rows);
  }

  lemma {:induction false} AllEdgesDetermine(ts: seq<Tree<Row>>, us: seq<Tree<Row>>, rows: seq<Row>)
    requires Tops(ts) == Tops(us) && AllHaveEdges(ts, rows) && AllHaveEdges(us, rows)
    ensures ts == us
    decreases ts
  {
    if ts != [] && us != [] {
      assert Tops(ts)[0] == ts[0].task && Tops(us)[0] == us[0].task;
      EdgesDetermine(ts[0], us[0], rows);
      assert Tops(ts)[1..] == Tops(ts[1..]) && Tops(us)[1..] == Tops(us[1..]);
      AllEdgesDetermine(ts[1..], us[1..], rows);
      assert ts == [ts[0]] + ts[1..] && us == [us[0]] + us[1..];
    }
  }

  lemma {:induction false} FoundInOrder(rows: seq<Row>, parent: Option<Id>)
    ensures ChildRows(rows, parent) == WithParent(rows, parent)
  {
    if rows != [] {
      FoundInOrder(rows[..|rows| - 1], parent);
      FoundAppend(rows[..|rows| - 1], rows[|rows| - 1], parent);
      assert rows == rows[..|rows| - 1] + [rows[|rows| - 1]];
    }
  }

  lemma {:induction false} FoundAppend(rows: seq<Row>, last: Row, parent: Option<Id>)
    ensures ChildRows(rows + [last], parent) == ChildRows(rows, parent) + if last.parent == parent then [last] else []
  {
    if rows != [] {
      FoundAppend(rows[1..], last, parent);
      assert (rows + [last])[1..] == rows[1..] + [last];
    } else {
      assert rows + [last] == [last] && [last][1..] == [];
    }
  }

  lemma {:induction false} BuiltTree(root: Row, rows: seq<Row>, rank: map<Id, nat>, bound: nat)
    requires Forest(rows, rank, bound) && root in rows && root.id in rank && rank[root.id] < bound
    requires RankedFrom(ChildRows(rows, Some(root.id)), rows, rank, rank[root.id] + 1)
    ensures BuildTree(root, rows, rank, bound)
         == Tree(root, BuildEach(ChildRows(rows, Some(root.id)), rows, rank, bound, rank[root.id] + 1))
  {
  }

  /** A built tree has the edges of the array. */
  lemma {:induction false} BuiltTreeHasEdges(root: Row, rows: seq<Row>, rank: map<Id, nat>, bound: nat)
    requires Forest(rows, rank, bound) && root in rows && root.id in rank
    ensures BuildTree(root, rows, rank, bound).task == root && HasEdges(BuildTree(root, rows, rank, bound), rows)
    decreases |rows|, bound - rank[root.id], 0, 0
  {
    ChildRanks(rows, rank, root);
    FoundInOrder(rows, Some(root.id));
    BuiltTree(root, rows, rank, bound);
    BuiltTreesHaveEdges(ChildRows(rows, Some(root.id)), rows, rank, bound, rank[root.id] + 1);
  }

  lemma {:induction false} BuiltTreesHaveEdges(list: seq<Row>, rows: seq<Row>, rank: map<Id, nat>, bound: nat, depth: nat)
    requires Forest(rows, rank, bound) && depth <= bound && RankedFrom(list, rows, rank, depth)
    ensures Tops(BuildEach(list, rows, rank, bound, depth)) == list && AllHaveEdges(BuildEach(list, rows, rank, bound, depth), rows)
    decreases |rows|, bound - depth, 1, |list|
  {
    if list != [] {
      BuiltTreeHasEdges(list[0], rows, rank, bound);
      BuiltTreesHaveEdges(list[1..], rows, rank, bound, depth);
      assert BuildEach(list, rows, rank, bound, depth)[1..] == BuildEach(list[1..], rows, rank, bound, depth);
    }
  }

  /** So the trees of an array are the ones with its edges whose tops are the rows without a parent, and there are no others. */
  lemma {:induction false} BuiltTreesAreTheOnes(rows: seq<Row>, rank: map<Id, nat>, bound: nat, trees: seq<Tree<Row>>)
    requires Forest(rows, rank, bound)
    ensures trees == BuildTrees(rows, rank, bound) <==> Tops(trees) == WithParent(rows, None) && AllHaveEdges(trees, rows)
  {
    RowsAreRanked(rows, rank);
    FoundInOrder(rows, None);
    BuiltTreesHaveEdges(ChildRows(rows, None), rows, rank, bound, 0);
    if Tops(trees) == WithParent(rows, None) && AllHaveEdges(trees, rows) {
      AllEdgesDetermine(trees, BuildTrees(rows, rank, bound), rows);
    }
  }
}
