/** Task arrays as forests: identifiers and parents, the acyclicity check, tree identifiers, and the trees built. */
module TaskForest {
  import opened Prelude

  /** A task of the array once its references are identifiers. */
  datatype Row = Row(id: Id, parent: Option<Id>)

  /** A truthiness test lets an empty parent through, although it is neither absent nor an identifier. */
  const BLANK := Id("")

  type Parents = map<Id, Option<Id>>

  predicate DistinctRows(rows: seq<Row>) {
    forall i, j {:trigger Apart(rows, i, j)} :: 0 <= i < j < |rows| ==> Apart(rows, i, j)
  }

  predicate Apart(rows: seq<Row>, i: int, j: int)
    requires 0 <= i < j < |rows|
  {
    rows[i].id != rows[j].id
  }

  lemma DistinctSlice(rows: seq<Row>, lo: nat, hi: nat)
    requires DistinctRows(rows) && lo <= hi <= |rows|
    ensures DistinctRows(rows[lo..hi])
    ensures hi == |rows| ==> DistinctRows(rows[lo..])
  {
    assert hi == |rows| ==> rows[lo..] == rows[lo..hi];
    forall i, j | 0 <= i < j < hi - lo ensures Apart(rows[lo..hi], i, j) {
      assert Apart(rows, lo + i, lo + j);
    }
  }

  /** The lookup table of the acyclicity check. */
  function ParentMap(rows: seq<Row>): Parents {
    if rows == [] then map[]
    else
      var last := |rows| - 1;
      ParentMap(rows[..last])[rows[last].id := rows[last].parent]
  }

  /** Its keys are the identifiers of the rows. */
  lemma {:induction false} RowOf(rows: seq<Row>, id: Id) returns (i: nat)
    requires id in ParentMap(rows)
    ensures i < |rows| && rows[i].id == id
  {
    var last := |rows| - 1;
    if rows[last].id == id {
      i := last;
    } else {
      i := RowOf(rows[..last], id);
    }
  }

  lemma {:induction false} IdIsKey(rows: seq<Row>, i: nat)
    requires i < |rows|
    ensures rows[i].id in ParentMap(rows)
  {
    if i < |rows| - 1 {
      IdIsKey(rows[..|rows| - 1], i);
    }
  }

  lemma {:induction false} ParentMapAt(rows: seq<Row>, i: nat)
    requires DistinctRows(rows) && i < |rows|
    ensures rows[i].id in ParentMap(rows) && ParentMap(rows)[rows[i].id] == rows[i].parent
  {
    if i < |rows| - 1 {
      assert Apart(rows, i, |rows| - 1);
      DistinctSlice(rows, 0, |rows| - 1);
      ParentMapAt(rows[..|rows| - 1], i);
    }
  }

  // ----- Climbing ---------------------------------------------------------------------------

  /** Each element but the last has the next one as its parent. */
  ghost predicate IsClimb(m: Parents, path: seq<Id>) {
    path != [] && forall i {:trigger Hop(m, path, i)} :: 0 <= i < |path| - 1 ==> Hop(m, path, i)
  }

  predicate Hop(m: Parents, path: seq<Id>, i: int)
    requires 0 <= i < |path| - 1
  {
    path[i] in m && m[path[i]] == Some(path[i + 1])
  }

  lemma ClimbTail(m: Parents, path: seq<Id>)
    requires IsClimb(m, path) && |path| > 1
    ensures path[0] in m && m[path[0]] == Some(path[1]) && IsClimb(m, path[1..])
  {
    assert Hop(m, path, 0);
    var tail := path[1..];
    forall i | 0 <= i < |tail| - 1 ensures Hop(m, tail, i) {
      assert Hop(m, path, i + 1);
    }
  }

  lemma ClimbLonger(m: Parents, id: Id, path: seq<Id>)
    requires IsClimb(m, path) && id in m && m[id] == Some(path[0])
    ensures IsClimb(m, [id] + path)
  {
    forall i | 0 <= i < |path| ensures Hop(m, [id] + path, i) {
      assert i > 0 ==> Hop(m, path, i - 1);
    }
  }

  lemma ClimbHigher(m: Parents, path: seq<Id>, id: Id)
    requires IsClimb(m, path) && path[|path| - 1] in m && m[path[|path| - 1]] == Some(id)
    ensures IsClimb(m, path + [id])
  {
    forall i | 0 <= i < |path| ensures Hop(m, path + [id], i) {
      assert i < |path| - 1 ==> Hop(m, path, i);
    }
  }

  ghost predicate Climbs(m: Parents, path: seq<Id>, from: Id, to: Id) {
    IsClimb(m, path) && path[0] == from && path[|path| - 1] == to
  }

  /** x is a or one of its descendants. */
  ghost predicate Under(m: Parents, a: Id, x: Id) {
    exists path :: Climbs(m, path, x, a)
  }

  ghost predicate HasParentCycle(m: Parents) {
    exists path, id :: |path| > 1 && Climbs(m, path, id, id)
  }

  /** Distances from the top: a witness that every climb ends. */
  ghost predicate IsRank(m: Parents, rank: map<Id, nat>) {
    && rank.Keys == m.Keys
    && (forall id {:trigger StepsDown(m, rank, id)} :: id in m ==> StepsDown(m, rank, id))
  }

  predicate StepsDown(m: Parents, rank: map<Id, nat>, id: Id)
    requires rank.Keys == m.Keys && id in m
  {
    m[id].Some? && m[id].value in m ==> rank[id] == rank[m[id].value] + 1
  }

  lemma UnderStep(m: Parents, a: Id, x: Id)
    ensures Under(m, a, x) <==> x == a || (x in m && m[x].Some? && Under(m, a, m[x].value))
  {
    if x == a {
      assert Climbs(m, [x], x, a);
    } else {
      if path :| Climbs(m, path, x, a) {
        ClimbTail(m, path);
        assert Climbs(m, path[1..], path[1], a);
      }
      if x in m && m[x].Some? && Under(m, a, m[x].value) {
        var path :| Climbs(m, path, m[x].value, a);
        ClimbLonger(m, x, path);
        assert Climbs(m, [x] + path, x, a);
      }
    }
  }

  lemma UnderParent(m: Parents, a: Id, c: Id, x: Id)
    requires c in m && m[c] == Some(a) && Under(m, c, x)
    ensures Under(m, a, x)
  {
    var path :| Climbs(m, path, x, c);
    ClimbHigher(m, path, a);
    assert Climbs(m, path + [a], x, a);
  }

  /** A proper descendant is under one of the children. */
  lemma UnderChild(m: Parents, a: Id, x: Id) returns (c: Id)
    requires Under(m, a, x) && x != a
    ensures c in m && m[c] == Some(a) && Under(m, c, x)
  {
    var path :| Climbs(m, path, x, a);
    c := path[|path| - 2];
    assert Hop(m, path, |path| - 2);
    var lower := path[..|path| - 1];
    forall i | 0 <= i < |lower| - 1 ensures Hop(m, lower, i) {
      assert Hop(m, path, i);
    }
    assert Climbs(m, lower, x, c);
  }

  lemma {:induction false} ClimbRank(m: Parents, rank: map<Id, nat>, path: seq<Id>)
    requires IsRank(m, rank) && IsClimb(m, path) && path[0] in m && path[|path| - 1] in m
    ensures rank[path[0]] == rank[path[|path| - 1]] + |path| - 1
    decreases |path|
  {
    if |path| > 1 {
      ClimbTail(m, path);
      assert StepsDown(m, rank, path[0]);
      if |path| > 2 {
        ClimbTail(m, path[1..]);
      }
      ClimbRank(m, rank, path[1..]);
    }
  }

  lemma RankExcludesCycles(m: Parents, rank: map<Id, nat>)
    requires IsRank(m, rank)
    ensures !HasParentCycle(m)
  {
    forall path, id | |path| > 1 ensures !Climbs(m, path, id, id) {
      if Climbs(m, path, id, id) {
        ClimbTail(m, path);
        ClimbRank(m, rank, path);
      }
    }
  }

  /** Ancestors of one node are comparable. */
  lemma {:induction false} AncestorsCompare(m: Parents, a: Id, b: Id, x: Id, path: seq<Id>)
    requires Climbs(m, path, x, a) && Under(m, b, x)
    ensures Under(m, a, b) || Under(m, b, a)
    decreases |path|
  {
    UnderStep(m, b, x);
    if x == b {
      assert Under(m, a, b);
    } else if x == a {
    } else {
      ClimbTail(m, path);
      assert Climbs(m, path[1..], m[x].value, a);
      AncestorsCompare(m, a, b, m[x].value, path[1..]);
    }
  }

  // ----- The acyclicity check ---------------------------------------------------------------

  /** dict.get: unknown identifiers have no parent. */
  function Next(m: Parents, id: Id): Option<Id> {
    if id in m then m[id] else None
  }

  ghost predicate IsChain(m: Parents, node: Option<Id>, chain: seq<Id>)
    decreases |chain|
  {
    if node.None? then chain == []
    else chain != [] && chain[0] == node.value && IsChain(m, Next(m, node.value), chain[1..])
  }

  lemma {:induction false} ChainIsUnique(m: Parents, node: Option<Id>, c1: seq<Id>, c2: seq<Id>)
    requires IsChain(m, node, c1) && IsChain(m, node, c2)
    ensures c1 == c2
    decreases |c1|
  {
    if node.Some? {
      ChainIsUnique(m, Next(m, node.value), c1[1..], c2[1..]);
      assert c1 == [c1[0]] + c1[1..] && c2 == [c2[0]] + c2[1..];
    }
  }

  /** The walk so far, and where it goes from here. */
  ghost predicate Walked(m: Parents, start: Id, chain: seq<Id>, node: Option<Id>) {
    && (forall i {:trigger Hop(m, chain, i)} :: 0 <= i < |chain| - 1 ==> Hop(m, chain, i))
    && node == (if chain == [] then Some(start) else Next(m, chain[|chain| - 1]))
    && (forall rest :: IsChain(m, node, rest) ==> IsChain(m, Some(start), chain + rest))
  }

  lemma WalkStarts(m: Parents, start: Id)
    ensures Walked(m, start, [], Some(start))
  {
    forall rest | IsChain(m, Some(start), rest) ensures IsChain(m, Some(start), [] + rest) {
      assert [] + rest == rest;
    }
  }

  lemma WalkGrows(m: Parents, start: Id, chain: seq<Id>, node: Id)
    requires Walked(m, start, chain, Some(node))
    ensures Walked(m, start, chain + [node], Next(m, node))
  {
    var more := chain + [node];
    forall i | 0 <= i < |more| - 1 ensures Hop(m, more, i) {
      assert i < |chain| - 1 ==> Hop(m, chain, i);
    }
    forall rest | IsChain(m, Next(m, node), rest) ensures IsChain(m, Some(start), more + rest) {
      assert ([node] + rest)[1..] == rest;
      assert IsChain(m, Some(node), [node] + rest);
      assert more + rest == chain + ([node] + rest);
    }
  }

  lemma WalkComesBack(m: Parents, start: Id, chain: seq<Id>, node: Id)
    requires Walked(m, start, chain, Some(node)) && node in chain
    ensures HasParentCycle(m)
  {
    var j :| 0 <= j < |chain| && chain[j] == node;
    var path := chain[j..] + [node];
    forall i | 0 <= i < |path| - 1 ensures Hop(m, path, i) {
      assert j + i < |chain| - 1 ==> Hop(m, chain, j + i);
    }
    assert |path| > 1 && Climbs(m, path, node, node);
  }

  /** One start of the check: either the climb ends, or it comes back to where it was. */
  method ClimbFrom(m: Parents, start: Id) returns (ok: bool, ghost chain: seq<Id>)
    ensures ok ==> IsChain(m, Some(start), chain)
    ensures !ok ==> HasParentCycle(m)
  {
    var seen: set<Id> := {};
    var node := Some(start);
    chain := [];
    WalkStarts(m, start);
    while node.Some?
      invariant seen == set id | id in chain
      invariant Walked(m, start, chain, node)
      invariant node.Some? ==> node.value in {start} + ParentIds(m)
      decreases ({start} + ParentIds(m)) - seen
    {
      if node.value in seen {
        WalkComesBack(m, start, chain, node.value);
        return false, [];
      }
      WalkGrows(m, start, chain, node.value);
      seen := seen + {node.value};
      chain := chain + [node.value];
      node := Next(m, node.value);
    }
    assert IsChain(m, node, []);
    assert chain + [] == chain;
    ok := true;
  }

  ghost function ParentIds(m: Parents): set<Id> {
    set id | id in m && m[id].Some? :: m[id].value
  }

  /** Rejects exactly the arrays whose parent references run in a circle; otherwise every climb has an end. */
  method ValidateParentIdsAcyclic(rows: seq<Row>) returns (ok: bool, ghost rank: map<Id, nat>)
    ensures ok <==> !HasParentCycle(ParentMap(rows))
    ensures ok ==> IsRank(ParentMap(rows), rank)
  {
    var m := ParentMap(rows);
    var starts := SetToSeq(m.Keys);
    rank := map[];
    ghost var chains: map<Id, seq<Id>> := map[];
    for i := 0 to |starts|
      invariant rank.Keys == chains.Keys == set id | id in starts[..i]
      invariant forall id :: id in chains ==> IsChain(m, Some(id), chains[id]) && rank[id] == |chains[id]|
    {
      ghost var chain;
      ok, chain := ClimbFrom(m, starts[i]);
      if !ok {
        return false, map[];
      }
      chains := chains[starts[i] := chain];
      rank := rank[starts[i] := |chain|];
    }
    ok := true;
    ChainsRank(m, chains, rank);
    RankExcludesCycles(m, rank);
  }

  lemma {:induction false} ChainsRank(m: Parents, chains: map<Id, seq<Id>>, rank: map<Id, nat>)
    requires rank.Keys == chains.Keys == m.Keys
    requires forall id :: id in chains ==> IsChain(m, Some(id), chains[id]) && rank[id] == |chains[id]|
    ensures IsRank(m, rank)
  {
    forall id | id in m ensures StepsDown(m, rank, id) {
      if m[id].Some? && m[id].value in m {
        ChainIsUnique(m, m[id], chains[id][1..], chains[m[id].value]);
      }
    }
  }

  // ----- Building trees ---------------------------------------------------------------------

  datatype Tree<T> = Tree(task: T, children: seq<Tree<T>>)

  function ChildRows(rows: seq<Row>, parent: Option<Id>): (found: seq<Row>)
    ensures forall r :: r in found <==> r in rows && r.parent == parent
  {
    if rows == [] then []
    else
      assert forall r :: r in rows <==> r == rows[0] || r in rows[1..];
      (if rows[0].parent == parent then [rows[0]] else []) + ChildRows(rows[1..], parent)
  }

  /** What building relies on: distinct identifiers and no cycle, with all ranks below a bound. */
  ghost predicate Forest(rows: seq<Row>, rank: map<Id, nat>, bound: nat) {
    && DistinctRows(rows) && IsRank(ParentMap(rows), rank) && BLANK !in ParentMap(rows)
    && (forall id {:trigger rank[id]} :: id in rank ==> rank[id] < bound)
  }

  ghost predicate RankedFrom(list: seq<Row>, rows: seq<Row>, rank: map<Id, nat>, depth: nat) {
    forall r :: r in list ==> r in rows && r.id in rank && rank[r.id] >= depth
  }

  /** build_task_tree_from_task_models. */
  function BuildTree(root: Row, rows: seq<Row>, ghost rank: map<Id, nat>, ghost bound: nat): Tree<Row>
    requires Forest(rows, rank, bound) && root in rows && root.id in rank
    decreases |rows|, bound - rank[root.id], 0, 0
  {
    ChildRanks(rows, rank, root);
    Tree(root, BuildEach(ChildRows(rows, Some(root.id)), rows, rank, bound, rank[root.id] + 1))
  }

  function BuildEach(list: seq<Row>, rows: seq<Row>, ghost rank: map<Id, nat>, ghost bound: nat, ghost depth: nat): (trees: seq<Tree<Row>>)
    requires Forest(rows, rank, bound) && depth <= bound
    requires RankedFrom(list, rows, rank, depth)
    decreases |rows|, bound - depth, 1, |list|
  {
    if list == [] then [] else [BuildTree(list[0], rows, rank, bound)] + BuildEach(list[1..], rows, rank, bound, depth)
  }

  lemma {:induction false} ChildRanks(rows: seq<Row>, rank: map<Id, nat>, root: Row)
    requires DistinctRows(rows) && IsRank(ParentMap(rows), rank) && root in rows
    ensures root.id in rank && RankedFrom(ChildRows(rows, Some(root.id)), rows, rank, rank[root.id] + 1)
  {
    ParentOfRow(rows, root);
    forall r | r in ChildRows(rows, Some(root.id)) ensures r.id in rank && rank[r.id] == rank[root.id] + 1 {
      ChildRank(rows, rank, root, r);
    }
  }

  lemma {:induction false} ChildRank(rows: seq<Row>, rank: map<Id, nat>, root: Row, r: Row)
    requires DistinctRows(rows) && IsRank(ParentMap(rows), rank) && root in rows && r in rows && r.parent == Some(root.id)
    ensures root.id in rank && r.id in rank && rank[r.id] == rank[root.id] + 1
  {
    ParentOfRow(rows, root);
    ParentOfRow(rows, r);
    assert StepsDown(ParentMap(rows), rank, r.id);
  }

  /** build_task_trees_from_task_models: one tree for each task without a parent. */
  function BuildTrees(rows: seq<Row>, ghost rank: map<Id, nat>, ghost bound: nat): seq<Tree<Row>>
    requires Forest(rows, rank, bound)
  {
    RowsAreRanked(rows, rank);
    BuildEach(ChildRows(rows, None), rows, rank, bound, 0)
  }

  lemma {:induction false} RowsAreRanked(rows: seq<Row>, rank: map<Id, nat>)
    requires IsRank(ParentMap(rows), rank)
    ensures RankedFrom(ChildRows(rows, None), rows, rank, 0)
  {
    forall r | r in rows ensures r.id in rank {
      var i :| 0 <= i < |rows| && rows[i] == r;
      IdIsKey(rows, i);
    }
  }

  /** to_list, in pre-order. */
  function ToList<T>(t: Tree<T>): seq<T> {
    [t.task] + ToLists(t.children)
  }

  function ToLists<T>(trees: seq<Tree<T>>): seq<T> {
    if trees == [] then [] else ToList(trees[0]) + ToLists(trees[1..])
  }

  // ----- Every task once --------------------------------------------------------------------

  /** No two of the listed tasks lie above one another. */
  ghost predicate Antichain(m: Parents, list: seq<Row>) {
    && DistinctRows(list)
    && (forall r, s {:trigger Under(m, r.id, s.id)} :: r in list && s in list && Under(m, r.id, s.id) ==> r.id == s.id)
  }

  /** The listed task that x descends from, if any. */
  ghost predicate UnderSome(m: Parents, list: seq<Row>, x: Id) {
    exists r :: r in list && Under(m, r.id, x)
  }

  ghost function Occurrences(list: seq<Row>, x: Row): nat {
    if list == [] then 0 else (if list[0] == x then 1 else 0) + Occurrences(list[1..], x)
  }

  lemma {:induction false} OccurrencesAppend(left: seq<Row>, right: seq<Row>, x: Row)
    ensures Occurrences(left + right, x) == Occurrences(left, x) + Occurrences(right, x)
  {
    if left == [] {
      assert left + right == right;
    } else {
      OccurrencesAppend(left[1..], right, x);
      assert (left + right)[1..] == left[1..] + right;
    }
  }

  lemma {:induction false} OccurrencesAreMultiplicity(list: seq<Row>, x: Row)
    ensures Occurrences(list, x) == multiset(list)[x]
  {
    if list != [] {
      OccurrencesAreMultiplicity(list[1..], x);
      assert list == [list[0]] + list[1..];
    }
  }

  /** The trees of the children of a task. */
  function Below(root: Row, rows: seq<Row>, ghost rank: map<Id, nat>, ghost bound: nat): (trees: seq<Tree<Row>>)
    requires Forest(rows, rank, bound) && root in rows
  {
    ChildRanks(rows, rank, root);
    BuildEach(ChildRows(rows, Some(root.id)), rows, rank, bound, rank[root.id] + 1)
  }

  lemma {:induction false} TreeOccurrences(root: Row, rows: seq<Row>, rank: map<Id, nat>, bound: nat, x: Row)
    requires Forest(rows, rank, bound) && root in rows && root.id in rank
    ensures Occurrences(ToList(BuildTree(root, rows, rank, bound)), x) ==
      (if x == root then 1 else 0) + Occurrences(ToLists(Below(root, rows, rank, bound)), x)
  {
    var below := Below(root, rows, rank, bound);
    assert BuildTree(root, rows, rank, bound) == Tree(root, below);
    assert ToList(Tree(root, below)) == [root] + ToLists(below);
    assert ([root] + ToLists(below))[1..] == ToLists(below);
  }

  /** A tree lists each descendant of its root once, and nothing else. */
  lemma {:induction false} TreeCounts(root: Row, rows: seq<Row>, rank: map<Id, nat>, bound: nat, x: Row)
    requires Forest(rows, rank, bound) && root in rows && root.id in rank && x in rows
    ensures Occurrences(ToList(BuildTree(root, rows, rank, bound)), x) == if Under(ParentMap(rows), root.id, x.id) then 1 else 0
    decreases |rows|, bound - rank[root.id], 0, 1
  {
    BelowCounts(root, rows, rank, bound, x);
    ChildrenCover(rows, rank, root, x);
    TreeOccurrences(root, rows, rank, bound, x);
  }

  lemma {:induction false} BelowCounts(root: Row, rows: seq<Row>, rank: map<Id, nat>, bound: nat, x: Row)
    requires Forest(rows, rank, bound) && root in rows && root.id in rank && x in rows
    ensures Occurrences(ToLists(Below(root, rows, rank, bound)), x) ==
      if UnderSome(ParentMap(rows), ChildRows(rows, Some(root.id)), x.id) then 1 else 0
    decreases |rows|, bound - rank[root.id], 0, 0
  {
    var children := ChildRows(rows, Some(root.id));
    var depth := rank[root.id] + 1;
    assert RankedFrom(children, rows, rank, depth) by {
      ChildRanks(rows, rank, root);
    }
    assert Antichain(ParentMap(rows), children) by {
      SiblingsAreAntichain(rows, rank, root);
    }
    TreesCount(children, rows, rank, bound, depth, x);
  }

  lemma {:induction false} TreesCount(list: seq<Row>, rows: seq<Row>, rank: map<Id, nat>, bound: nat, depth: nat, x: Row)
    requires Forest(rows, rank, bound) && depth <= bound && x in rows && Antichain(ParentMap(rows), list)
    requires RankedFrom(list, rows, rank, depth)
    ensures Occurrences(ToLists(BuildEach(list, rows, rank, bound, depth)), x) == if UnderSome(ParentMap(rows), list, x.id) then 1 else 0
    decreases |rows|, bound - depth, 1, |list|
  {
    if list != [] {
      var m := ParentMap(rows);
      assert forall r :: r in list <==> r == list[0] || r in list[1..];
      TreeCounts(list[0], rows, rank, bound, x);
      DistinctSlice(list, 1, |list|);
      TreesCount(list[1..], rows, rank, bound, depth, x);
      OnlyOneAbove(m, list, x.id);
      var head, rest := BuildTree(list[0], rows, rank, bound), BuildEach(list[1..], rows, rank, bound, depth);
      assert BuildEach(list, rows, rank, bound, depth) == [head] + rest;
      OccurrencesAppend(ToList(head), ToLists(rest), x);
    }
  }

  /** x is under the head or under the rest of an antichain, not both. */
  lemma OnlyOneAbove(m: Parents, list: seq<Row>, x: Id)
    requires list != [] && Antichain(m, list)
    ensures UnderSome(m, list, x) <==> Under(m, list[0].id, x) || UnderSome(m, list[1..], x)
    ensures !(Under(m, list[0].id, x) && UnderSome(m, list[1..], x))
  {
    assert forall r :: r in list <==> r == list[0] || r in list[1..];
    if r :| Under(m, list[0].id, x) && r in list[1..] && Under(m, r.id, x) {
      var path :| Climbs(m, path, x, list[0].id);
      AncestorsCompare(m, list[0].id, r.id, x, path);
      var i :| 0 < i < |list| && list[i] == r;
      assert Apart(list, 0, i);
    }
  }

  lemma {:induction false} SiblingsAreAntichain(rows: seq<Row>, rank: map<Id, nat>, root: Row)
    requires DistinctRows(rows) && IsRank(ParentMap(rows), rank) && root in rows
    ensures Antichain(ParentMap(rows), ChildRows(rows, Some(root.id)))
  {
    var m := ParentMap(rows);
    var children := ChildRows(rows, Some(root.id));
    ChildRowsDistinct(rows, Some(root.id));
    forall r, s | r in children && s in children && Under(m, r.id, s.id) ensures r.id == s.id {
      ChildRank(rows, rank, root, r);
      ChildRank(rows, rank, root, s);
      var path :| Climbs(m, path, s.id, r.id);
      ClimbRank(m, rank, path);
    }
  }

  lemma {:induction false} ChildRowsDistinct(rows: seq<Row>, parent: Option<Id>)
    requires DistinctRows(rows)
    ensures DistinctRows(ChildRows(rows, parent))
  {
    if rows != [] {
      var rest, all := ChildRows(rows[1..], parent), ChildRows(rows, parent);
      DistinctSlice(rows, 1, |rows|);
      ChildRowsDistinct(rows[1..], parent);
      forall r | r in rest ensures r.id != rows[0].id {
        var i :| 0 < i < |rows| && rows[i] == r;
        assert Apart(rows, 0, i);
      }
      forall i, j | 0 <= i < j < |all| ensures Apart(all, i, j) {
        if all == rest {
          assert Apart(rest, i, j);
        } else if i > 0 {
          assert Apart(rest, i - 1, j - 1);
        } else {
          assert all[j] in rest;
        }
      }
    }
  }

  lemma {:induction false} ParentOfRow(rows: seq<Row>, r: Row)
    requires DistinctRows(rows) && r in rows
    ensures r.id in ParentMap(rows) && ParentMap(rows)[r.id] == r.parent
  {
    var i :| 0 <= i < |rows| && rows[i] == r;
    ParentMapAt(rows, i);
  }

  /** Descendants are the root itself and what lies under its children. */
  lemma {:induction false} ChildrenCover(rows: seq<Row>, rank: map<Id, nat>, root: Row, x: Row)
    requires DistinctRows(rows) && IsRank(ParentMap(rows), rank) && root in rows && x in rows
    ensures var below := UnderSome(ParentMap(rows), ChildRows(rows, Some(root.id)), x.id);
      && (Under(ParentMap(rows), root.id, x.id) <==> x == root || below)
      && !(x == root && below)
  {
    var m := ParentMap(rows);
    var children := ChildRows(rows, Some(root.id));
    UnderStep(m, root.id, x.id);
    ParentOfRow(rows, root);
    if x.id == root.id {
      SameRow(rows, x, root);
      if c :| c in children && Under(m, c.id, x.id) {
        ParentOfRow(rows, c);
        assert StepsDown(m, rank, c.id);
        var path :| Climbs(m, path, x.id, c.id);
        ClimbRank(m, rank, path);
      }
    } else {
      if Under(m, root.id, x.id) {
        var c := UnderChild(m, root.id, x.id);
        var i := RowOf(rows, c);
        ParentMapAt(rows, i);
        assert rows[i] in children;
      }
      if c :| c in children && Under(m, c.id, x.id) {
        ParentOfRow(rows, c);
        UnderParent(m, root.id, c.id, x.id);
      }
    }
  }

  lemma SameRow(rows: seq<Row>, r: Row, s: Row)
    requires DistinctRows(rows) && r in rows && s in rows && r.id == s.id
    ensures r == s
  {
    var i :| 0 <= i < |rows| && rows[i] == r;
    var j :| 0 <= j < |rows| && rows[j] == s;
    assert i < j ==> Apart(rows, i, j);
    assert j < i ==> Apart(rows, j, i);
  }

  /** Every parent is a task of the array, or blank. */
  ghost predicate ParentsKnown(rows: seq<Row>) {
    forall r :: r in rows && r.parent.Some? ==> r.parent.value == BLANK || r.parent.value in ParentMap(rows)
  }

  predicate NoBlankParent(rows: seq<Row>) {
    forall r :: r in rows ==> r.parent != Some(BLANK)
  }

  /** Climbing from a task ends at a task without a parent, or with a blank one. */
  lemma {:induction false} TopOf(rows: seq<Row>, rank: map<Id, nat>, x: Row) returns (top: Row)
    requires DistinctRows(rows) && IsRank(ParentMap(rows), rank) && ParentsKnown(rows) && x in rows
    ensures top in rows && Under(ParentMap(rows), top.id, x.id) && (top.parent.None? || top.parent == Some(BLANK))
    decreases if x.id in rank then rank[x.id] else 0
  {
    var m := ParentMap(rows);
    ParentOfRow(rows, x);
    if x.parent.None? || x.parent.value == BLANK {
      top := x;
      UnderStep(m, x.id, x.id);
    } else {
      var i := RowOf(rows, x.parent.value);
      ParentOfRow(rows, rows[i]);
      assert StepsDown(m, rank, x.id);
      top := TopOf(rows, rank, rows[i]);
      UnderStep(m, top.id, x.id);
    }
  }

  lemma {:induction false} RootsAreAntichain(rows: seq<Row>)
    requires DistinctRows(rows)
    ensures Antichain(ParentMap(rows), ChildRows(rows, None))
  {
    ChildRowsDistinct(rows, None);
    forall r, s | r in ChildRows(rows, None) && s in ChildRows(rows, None) && Under(ParentMap(rows), r.id, s.id) ensures r.id == s.id {
      ParentOfRow(rows, s);
      UnderStep(ParentMap(rows), r.id, s.id);
    }
  }

  /** How often the built trees list a task: once, or not at all when a blank parent cuts it off. */
  lemma {:induction false} ForestCounts(rows: seq<Row>, rank: map<Id, nat>, bound: nat, x: Row)
    requires Forest(rows, rank, bound) && x in rows
    ensures Occurrences(ToLists(BuildTrees(rows, rank, bound)), x) == if UnderSome(ParentMap(rows), ChildRows(rows, None), x.id) then 1 else 0
  {
    RowsAreRanked(rows, rank);
    RootsAreAntichain(rows);
    TreesCount(ChildRows(rows, None), rows, rank, bound, 0, x);
  }

  /** Trees contain nothing but rows of the array. */
  lemma {:induction false} TreeRows(root: Row, rows: seq<Row>, rank: map<Id, nat>, bound: nat)
    requires Forest(rows, rank, bound) && root in rows && root.id in rank
    ensures forall x :: x in ToList(BuildTree(root, rows, rank, bound)) ==> x in rows
    decreases |rows|, bound - rank[root.id], 0, 0
  {
    ChildRanks(rows, rank, root);
    TreesRows(ChildRows(rows, Some(root.id)), rows, rank, bound, rank[root.id] + 1);
  }

  lemma {:induction false} TreesRows(list: seq<Row>, rows: seq<Row>, rank: map<Id, nat>, bound: nat, depth: nat)
    requires Forest(rows, rank, bound) && depth <= bound
    requires RankedFrom(list, rows, rank, depth)
    ensures forall x :: x in ToLists(BuildEach(list, rows, rank, bound, depth)) ==> x in rows
    decreases |rows|, bound - depth, 1, |list|
  {
    if list != [] {
      TreeRows(list[0], rows, rank, bound);
      TreesRows(list[1..], rows, rank, bound, depth);
    }
  }

  lemma {:induction false} RowCount(rows: seq<Row>, x: Row)
    requires DistinctRows(rows)
    ensures Occurrences(rows, x) == if x in rows then 1 else 0
  {
    if rows != [] {
      DistinctSlice(rows, 1, |rows|);
      RowCount(rows[1..], x);
      if x in rows[1..] {
        var i :| 0 < i < |rows| && rows[i] == x;
        assert Apart(rows, 0, i);
      }
    }
  }

  /** The concatenated lists of the trees are a permutation of the array exactly when no task has a blank parent. */
  lemma TreesArePermutation(rows: seq<Row>, rank: map<Id, nat>, bound: nat)
    requires Forest(rows, rank, bound) && ParentsKnown(rows)
    ensures multiset(ToLists(BuildTrees(rows, rank, bound))) == multiset(rows) <==> NoBlankParent(rows)
  {
    var built := ToLists(BuildTrees(rows, rank, bound));
    RowsAreRanked(rows, rank);
    TreesRows(ChildRows(rows, None), rows, rank, bound, 0);
    if NoBlankParent(rows) {
      forall x ensures multiset(built)[x] == multiset(rows)[x] {
        RowCount(rows, x);
        OccurrencesAreMultiplicity(rows, x);
        OccurrencesAreMultiplicity(built, x);
        if x in rows {
          ForestCounts(rows, rank, bound, x);
          var top := TopOf(rows, rank, x);
          assert top in ChildRows(rows, None);
        } else {
          assert x !in built;
        }
      }
    } else {
      var x :| x in rows && x.parent == Some(BLANK);
      BlankIsCutOff(rows, rank, x);
      ForestCounts(rows, rank, bound, x);
      RowCount(rows, x);
      OccurrencesAreMultiplicity(rows, x);
      OccurrencesAreMultiplicity(built, x);
    }
  }

  lemma {:induction false} BlankIsCutOff(rows: seq<Row>, rank: map<Id, nat>, x: Row)
    requires DistinctRows(rows) && BLANK !in ParentMap(rows) && x in rows && x.parent == Some(BLANK)
    ensures !UnderSome(ParentMap(rows), ChildRows(rows, None), x.id)
  {
    var m := ParentMap(rows);
    ParentOfRow(rows, x);
    forall r | r in ChildRows(rows, None) ensures !Under(m, r.id, x.id) {
      ParentOfRow(rows, r);
      UnderStep(m, r.id, x.id);
      UnderStep(m, r.id, BLANK);
    }
  }
}
