/** Minimal subtrees and clones of task trees. */
module TreeCloning {
  import opened Prelude
  import opened TaskForest
  import opened DependencyFix

  datatype Task = Task(id: Id, parent: Option<Id>, treeId: Id, dependencies: seq<Dependency>)

  // ----- Identifiers ------------------------------------------------------------------------

  /** collect_task_ids. */
  function Ids(t: Tree<Task>): set<Id> {
    {t.task.id} + EachIds(t.children)
  }

  function EachIds(trees: seq<Tree<Task>>): set<Id> {
    if trees == [] then {} else Ids(trees[0]) + EachIds(trees[1..])
  }

  /** No identifier occurs twice. */
  predicate Unique(t: Tree<Task>) {
    t.task.id !in EachIds(t.children) && EachUnique(t.children)
  }

  predicate EachUnique(trees: seq<Tree<Task>>) {
    trees != [] ==> Unique(trees[0]) && EachUnique(trees[1..]) && Ids(trees[0]) !! EachIds(trees[1..])
  }

  // ----- The minimal subtree ----------------------------------------------------------------

  /** build_minimal_subtree: nodes whose subtree holds something required. */
  function Minimal(t: Tree<Task>, required: set<Id>): (m: Option<Tree<Task>>)
    ensures m.Some? <==> Ids(t) * required != {}
  {
    if Ids(t) * required == {} then None else Some(Tree(t.task, EachMinimal(t.children, required)))
  }

  function EachMinimal(trees: seq<Tree<Task>>, required: set<Id>): seq<Tree<Task>> {
    if trees == [] then []
    else
      var first := Minimal(trees[0], required);
      (if first.Some? then [first.value] else []) + EachMinimal(trees[1..], required)
  }

  /** _find_minimal_subtree. */
  function FindMinimalSubtree(t: Tree<Task>, required: set<Id>): Option<Tree<Task>> {
    if required <= Ids(t) then Minimal(t, required) else None
  }

  function KeptIds(t: Tree<Task>, required: set<Id>): set<Id> {
    if Ids(t) * required == {} then {} else Ids(Minimal(t, required).value)
  }

  /** With a member, its parent in the tree is a member. */
  ghost predicate ParentClosed(t: Tree<Task>, s: set<Id>) {
    && (forall i :: 0 <= i < |t.children| && t.children[i].task.id in s ==> t.task.id in s)
    && (forall i :: 0 <= i < |t.children| ==> ParentClosed(t.children[i], s))
  }

  lemma {:induction false} EachMinimalIds(trees: seq<Tree<Task>>, required: set<Id>)
    requires trees != []
    ensures EachIds(EachMinimal(trees, required)) == KeptIds(trees[0], required) + EachIds(EachMinimal(trees[1..], required))
  {
    var first, rest := Minimal(trees[0], required), EachMinimal(trees[1..], required);
    if first.Some? {
      assert ([first.value] + rest)[1..] == rest;
    } else {
      assert [] + rest == rest;
    }
  }

  lemma {:induction false} EachKept(trees: seq<Tree<Task>>, required: set<Id>)
    ensures EachIds(trees) * required <= EachIds(EachMinimal(trees, required)) <= EachIds(trees)
    decreases trees
  {
    if trees != [] {
      EachKept(trees[1..], required);
      MinimalKeeps(trees[0], required);
      EachMinimalIds(trees, required);
    }
  }

  /** The kept part of a family of trees, seen from one of them. */
  lemma {:induction false} KeptAt(trees: seq<Tree<Task>>, required: set<Id>, i: nat)
    requires i < |trees|
    ensures KeptIds(trees[i], required) <= EachIds(EachMinimal(trees, required))
    ensures EachUnique(trees) ==> Ids(trees[i]) * EachIds(EachMinimal(trees, required)) == KeptIds(trees[i], required)
    decreases |trees|
  {
    var rest := trees[1..];
    EachMinimalIds(trees, required);
    MinimalKeeps(trees[0], required);
    EachKept(rest, required);
    if i > 0 {
      KeptAt(rest, required, i - 1);
      EachIdsMember(rest);
      assert trees[i] == rest[i - 1];
      assert Ids(rest[i - 1]) <= EachIds(rest);
    }
  }

  lemma {:induction false} EachIdsMember(trees: seq<Tree<Task>>)
    ensures forall i :: 0 <= i < |trees| ==> Ids(trees[i]) <= EachIds(trees)
    ensures EachUnique(trees) ==> forall i :: 0 <= i < |trees| ==> Unique(trees[i])
  {
    if trees != [] {
      EachIdsMember(trees[1..]);
      forall i | 0 <= i < |trees| ensures Ids(trees[i]) <= EachIds(trees) {
        assert i > 0 ==> trees[i] == trees[1..][i - 1];
      }
      if EachUnique(trees) {
        forall i | 0 <= i < |trees| ensures Unique(trees[i]) {
          assert i > 0 ==> trees[i] == trees[1..][i - 1];
        }
      }
    }
  }

  /** What is required stays, and nothing is invented. */
  lemma {:induction false} MinimalKeeps(t: Tree<Task>, required: set<Id>)
    ensures Ids(t) * required <= KeptIds(t, required) <= Ids(t)
    decreases t
  {
    EachKept(t.children, required);
  }

  /** The kept identifiers are closed under parents, seen from anywhere in the tree. */
  lemma {:induction false} KeptIsParentClosed(t: Tree<Task>, required: set<Id>, s: set<Id>)
    requires Unique(t) && Ids(t) * s == KeptIds(t, required)
    ensures ParentClosed(t, s)
  {
    EachIdsMember(t.children);
    MinimalKeeps(t, required);
    forall i | 0 <= i < |t.children|
      ensures ParentClosed(t.children[i], s) && (t.children[i].task.id in s ==> t.task.id in s)
    {
      var child := t.children[i];
      KeptAt(t.children, required, i);
      MinimalKeeps(child, required);
      assert Ids(child) <= Ids(t);
      assert Ids(child) * s == Ids(child) * KeptIds(t, required);
      if Ids(t) * required == {} {
        assert KeptIds(child, required) == {};
      } else {
        assert t.task.id !in Ids(child);
      }
      KeptIsParentClosed(child, required, s);
    }
  }

  /** A closed set with everything required in it has every kept identifier. */
  lemma {:induction false} KeptIsLeast(t: Tree<Task>, required: set<Id>, s: set<Id>)
    requires ParentClosed(t, s) && Ids(t) * required <= s
    ensures KeptIds(t, required) <= s
    decreases t
  {
    if Ids(t) * required != {} {
      EachKeptIsLeast(t.children, required, s);
      if t.task.id !in required {
        var x :| x in EachIds(t.children) && x in required;
        var i := ChildHolding(t.children, x);
        EachIdsMember(t.children);
        assert Ids(t.children[i]) <= Ids(t) && x in Ids(t.children[i]) * required;
        RequiredRoot(t.children[i], required, s);
      }
    }
  }

  lemma {:induction false} EachKeptIsLeast(trees: seq<Tree<Task>>, required: set<Id>, s: set<Id>)
    requires forall i :: 0 <= i < |trees| ==> ParentClosed(trees[i], s)
    requires EachIds(trees) * required <= s
    ensures EachIds(EachMinimal(trees, required)) <= s
    decreases trees
  {
    if trees != [] {
      EachMinimalIds(trees, required);
      KeptIsLeast(trees[0], required, s);
      EachKeptIsLeast(trees[1..], required, s);
    }
  }

  lemma {:induction false} ChildHolding(trees: seq<Tree<Task>>, x: Id) returns (i: nat)
    requires x in EachIds(trees)
    ensures i < |trees| && x in Ids(trees[i])
  {
    if x in Ids(trees[0]) {
      i := 0;
    } else {
      i := ChildHolding(trees[1..], x);
      i := i + 1;
    }
  }

  /** A closed set that meets a required subtree contains its root. */
  lemma {:induction false} RequiredRoot(t: Tree<Task>, required: set<Id>, s: set<Id>)
    requires ParentClosed(t, s) && Ids(t) * required <= s && Ids(t) * required != {}
    ensures t.task.id in s
  {
    if t.task.id !in required {
      var x :| x in EachIds(t.children) && x in required;
      var i := ChildHolding(t.children, x);
      EachIdsMember(t.children);
      assert Ids(t.children[i]) <= Ids(t) && x in Ids(t.children[i]) * required;
      RequiredRoot(t.children[i], required, s);
    }
  }

  /** The subtree found is exactly the ancestor closure of what is required, and there is one exactly when the tree has it all. */
  lemma {:induction false} MinimalSubtreeIsAncestorClosure(t: Tree<Task>, required: set<Id>)
    requires Unique(t)
    ensures FindMinimalSubtree(t, required).Some? <==> required <= Ids(t) && required != {}
    ensures FindMinimalSubtree(t, required).Some? ==>
      var kept := Ids(FindMinimalSubtree(t, required).value);
      && required <= kept <= Ids(t) && ParentClosed(t, kept)
      && (forall s: set<Id> :: required <= s && ParentClosed(t, s) ==> kept <= s)
      && Pruned(FindMinimalSubtree(t, required).value, t, kept)
  {
    if required <= Ids(t) && required != {} {
      var kept := KeptIds(t, required);
      assert Ids(t) * required == required;
      MinimalKeeps(t, required);
      KeptIsParentClosed(t, required, kept);
      MinimalIsPruned(t, required, kept);
      forall s: set<Id> | required <= s && ParentClosed(t, s) ensures kept <= s {
        KeptIsLeast(t, required, s);
      }
    }
  }

  /** m is t without the nodes outside s: the same tasks, with those of their children that are in s, in order. */
  ghost predicate Pruned(m: Tree<Task>, t: Tree<Task>, s: set<Id>)
    decreases t, 0
  {
    m.task == t.task && EachPruned(m.children, t.children, s)
  }

  ghost predicate EachPruned(ms: seq<Tree<Task>>, ts: seq<Tree<Task>>, s: set<Id>)
    decreases ts
  {
    if ts == [] then ms == []
    else if ts[0].task.id in s then ms != [] && Pruned(ms[0], ts[0], s) && EachPruned(ms[1..], ts[1..], s)
    else EachPruned(ms, ts[1..], s)
  }

  /** The subtree found is the tree cut down to the tasks it keeps. */
  lemma {:induction false} MinimalIsPruned(t: Tree<Task>, required: set<Id>, s: set<Id>)
    requires Unique(t) && Ids(t) * required != {} && Ids(t) * s == KeptIds(t, required)
    ensures Pruned(Minimal(t, required).value, t, s)
    decreases t, 0
  {
    EachKept(t.children, required);
    assert EachIds(t.children) * s == EachIds(EachMinimal(t.children, required)) by {
      assert EachIds(t.children) <= Ids(t) && t.task.id !in EachIds(t.children);
      assert KeptIds(t, required) == {t.task.id} + EachIds(EachMinimal(t.children, required));
    }
    EachMinimalIsPruned(t.children, required, s);
  }

  lemma {:induction false} EachMinimalIsPruned(ts: seq<Tree<Task>>, required: set<Id>, s: set<Id>)
    requires EachUnique(ts) && EachIds(ts) * s == EachIds(EachMinimal(ts, required))
    ensures EachPruned(EachMinimal(ts, required), ts, s)
    decreases ts
  {
    if ts != [] {
      EachMinimalIds(ts, required);
      MinimalKeeps(ts[0], required);
      EachKept(ts[1..], required);
      KeptApart(Ids(ts[0]), EachIds(ts[1..]), s, KeptIds(ts[0], required), EachIds(EachMinimal(ts[1..], required)));
      EachMinimalIsPruned(ts[1..], required, s);
      if Ids(ts[0]) * required != {} {
        MinimalIsPruned(ts[0], required, s);
        assert ts[0].task.id in KeptIds(ts[0], required);
        assert EachMinimal(ts, required)[1..] == EachMinimal(ts[1..], required);
      } else {
        assert ts[0].task.id in Ids(ts[0]) && ts[0].task.id !in s;
        assert EachMinimal(ts, required) == EachMinimal(ts[1..], required);
      }
    }
  }

  lemma KeptApart(left: set<Id>, right: set<Id>, s: set<Id>, inLeft: set<Id>, inRight: set<Id>)
    requires left !! right && inLeft <= left && inRight <= right && (left + right) * s == inLeft + inRight
    ensures left * s == inLeft && right * s == inRight
  {
    assert forall x :: x in left * s ==> x in (left + right) * s;
    assert forall x :: x in right * s ==> x in (left + right) * s;
    assert forall x :: x in inLeft + inRight ==> x in (left + right) * s;
  }

  // ----- Cloning ----------------------------------------------------------------------------

  function Size(t: Tree<Task>): nat {
    1 + EachSize(t.children)
  }

  function EachSize(trees: seq<Tree<Task>>): nat {
    if trees == [] then 0 else Size(trees[0]) + EachSize(trees[1..])
  }

  /**
   * c is the clone of t: node by node the new identifier, the parent's new identifier, one tree identifier,
   * and the fixed dependencies.
   */
  ghost predicate IsCloneOf(t: Tree<Task>, c: Tree<Task>, ids: map<Id, Id>, parent: Option<Id>, treeId: Id) {
    && t.task.id in ids
    && c.task == Task(ids[t.task.id], parent, treeId, Fixed(t.task.dependencies, ids))
    && |c.children| == |t.children|
    && (forall i :: 0 <= i < |t.children| ==> IsCloneOf(t.children[i], c.children[i], ids, Some(c.task.id), treeId))
  }

  /** The first pass of the clone: new identifiers and parents, everything else as copied. */
  function Renaming(t: Tree<Task>, ids: map<Id, Id>, parent: Option<Id>): (c: Tree<Task>)
    requires Ids(t) <= ids.Keys
  {
    var id := ids[t.task.id];
    Tree(t.task.(id := id, parent := parent), EachRenaming(t.children, ids, Some(id)))
  }

  function EachRenaming(trees: seq<Tree<Task>>, ids: map<Id, Id>, parent: Option<Id>): seq<Tree<Task>>
    requires EachIds(trees) <= ids.Keys
  {
    if trees == [] then [] else [Renaming(trees[0], ids, parent)] + EachRenaming(trees[1..], ids, parent)
  }

  ghost predicate Grows(ids: map<Id, Id>, more: map<Id, Id>) {
    forall id :: id in ids ==> id in more && more[id] == ids[id]
  }

  lemma {:induction false} RenamingIsStable(t: Tree<Task>, ids: map<Id, Id>, more: map<Id, Id>, parent: Option<Id>)
    requires Ids(t) <= ids.Keys && Grows(ids, more)
    ensures Ids(t) <= more.Keys && Renaming(t, more, parent) == Renaming(t, ids, parent)
    decreases t
  {
    EachRenamingIsStable(t.children, ids, more, Some(ids[t.task.id]));
  }

  lemma {:induction false} EachRenamingIsStable(trees: seq<Tree<Task>>, ids: map<Id, Id>, more: map<Id, Id>, parent: Option<Id>)
    requires EachIds(trees) <= ids.Keys && Grows(ids, more)
    ensures EachIds(trees) <= more.Keys && EachRenaming(trees, more, parent) == EachRenaming(trees, ids, parent)
    decreases trees
  {
    if trees != [] {
      RenamingIsStable(trees[0], ids, more, parent);
      EachRenamingIsStable(trees[1..], ids, more, parent);
    }
  }

  /** _stamp_tree_id. */
  function Stamping(t: Tree<Task>, treeId: Id): Tree<Task> {
    Tree(t.task.(treeId := treeId), EachStamping(t.children, treeId))
  }

  function EachStamping(trees: seq<Tree<Task>>, treeId: Id): seq<Tree<Task>> {
    if trees == [] then [] else [Stamping(trees[0], treeId)] + EachStamping(trees[1..], treeId)
  }

  /** The dependency fix of a whole tree. */
  function Fixing(t: Tree<Task>, ids: map<Id, Id>): Tree<Task> {
    Tree(t.task.(dependencies := Fixed(t.task.dependencies, ids)), EachFixing(t.children, ids))
  }

  function EachFixing(trees: seq<Tree<Task>>, ids: map<Id, Id>): seq<Tree<Task>> {
    if trees == [] then [] else [Fixing(trees[0], ids)] + EachFixing(trees[1..], ids)
  }

  /** The three passes together make a clone. */
  lemma {:induction false} PassesCompose(t: Tree<Task>, ids: map<Id, Id>, parent: Option<Id>, treeId: Id)
    requires Ids(t) <= ids.Keys
    ensures IsCloneOf(t, Fixing(Stamping(Renaming(t, ids, parent), treeId), ids), ids, parent, treeId)
    decreases t, 0
  {
    EachPassesCompose(t.children, ids, Some(ids[t.task.id]), treeId);
  }

  lemma {:induction false} EachPassesCompose(trees: seq<Tree<Task>>, ids: map<Id, Id>, parent: Option<Id>, treeId: Id)
    requires EachIds(trees) <= ids.Keys
    ensures var c := EachFixing(EachStamping(EachRenaming(trees, ids, parent), treeId), ids);
      |c| == |trees| && forall i :: 0 <= i < |trees| ==> IsCloneOf(trees[i], c[i], ids, parent, treeId)
    decreases trees
  {
    if trees != [] {
      PassesCompose(trees[0], ids, parent, treeId);
      EachPassesCompose(trees[1..], ids, parent, treeId);
      var renamed := EachRenaming(trees, ids, parent);
      assert renamed[1..] == EachRenaming(trees[1..], ids, parent);
      var stamped := EachStamping(renamed, treeId);
      assert stamped[1..] == EachStamping(renamed[1..], treeId);
      var c, rest := EachFixing(stamped, ids), EachFixing(stamped[1..], ids);
      assert c[1..] == rest;
      forall i | 0 <= i < |trees| ensures IsCloneOf(trees[i], c[i], ids, parent, treeId) {
        if i > 0 {
          assert trees[i] == trees[1..][i - 1] && c[i] == rest[i - 1];
        }
      }
    }
  }

  /** No task of the tree depends on one of the names. */
  ghost predicate Avoids(t: Tree<Task>, names: set<Id>)
    decreases t, 0
  {
    (forall d :: d in t.task.dependencies && Reference(d).Some? ==> Reference(d).value !in names) && EachAvoids(t.children, names)
  }

  ghost predicate EachAvoids(trees: seq<Tree<Task>>, names: set<Id>)
    decreases trees
  {
    trees != [] ==> Avoids(trees[0], names) && EachAvoids(trees[1..], names)
  }

  lemma {:induction false} PassesAvoid(t: Tree<Task>, ids: map<Id, Id>, parent: Option<Id>, treeId: Id, names: set<Id>)
    requires Ids(t) <= ids.Keys && Avoids(t, names)
    ensures Avoids(Stamping(Renaming(t, ids, parent), treeId), names)
    decreases t, 0
  {
    EachPassesAvoid(t.children, ids, Some(ids[t.task.id]), treeId, names);
  }

  lemma {:induction false} EachPassesAvoid(trees: seq<Tree<Task>>, ids: map<Id, Id>, parent: Option<Id>, treeId: Id, names: set<Id>)
    requires EachIds(trees) <= ids.Keys && EachAvoids(trees, names)
    ensures EachAvoids(EachStamping(EachRenaming(trees, ids, parent), treeId), names)
    decreases trees
  {
    if trees != [] {
      PassesAvoid(trees[0], ids, parent, treeId, names);
      EachPassesAvoid(trees[1..], ids, parent, treeId, names);
      var renamed := EachRenaming(trees, ids, parent);
      assert renamed[1..] == EachRenaming(trees[1..], ids, parent);
      assert EachStamping(renamed, treeId)[1..] == EachStamping(renamed[1..], treeId);
    }
  }

  ghost predicate Distinct(ids: seq<Id>) {
    forall i, j {:trigger Differ(ids, i, j)} :: 0 <= i < j < |ids| ==> Differ(ids, i, j)
  }

  predicate Differ(ids: seq<Id>, i: int, j: int)
    requires 0 <= i < j < |ids|
  {
    ids[i] != ids[j]
  }

  ghost predicate Injective(ids: map<Id, Id>) {
    forall x, y :: x in ids && y in ids && ids[x] == ids[y] ==> x == y
  }

  class TreeCloner {
    const generated: seq<Id>      // the uuid4 values to come
    var next: nat
    var idMapping: map<Id, Id>

    ghost predicate Valid()
      reads this
    {
      && next <= |generated|
      && Distinct(generated) && Injective(idMapping)
      && (forall id :: id in idMapping ==> idMapping[id] in generated[..next])
    }

    constructor (generated: seq<Id>)
      requires Distinct(generated)
      ensures Valid() && this.generated == generated && next == 0 && idMapping == map[]
    {
      this.generated := generated;
      next, idMapping := 0, map[];
    }

    method Assign(id: Id) returns (newId: Id)
      requires Valid() && id !in idMapping && next < |generated|
      modifies this
      ensures Valid() && next == old(next) + 1 && idMapping == old(idMapping)[id := newId] && newId == generated[old(next)]
    {
      newId := generated[next];
      forall x | x in idMapping ensures idMapping[x] != newId {
        var k :| 0 <= k < next && generated[k] == idMapping[x];
        assert Differ(generated, k, next);
      }
      idMapping := idMapping[id := newId];
      next := next + 1;
    }

    /** _reset_task_recursive. */
    method Reset(t: Tree<Task>, parent: Option<Id>) returns (c: Tree<Task>)
      requires Valid() && Unique(t) && Ids(t) !! idMapping.Keys && next + Size(t) <= |generated|
      modifies this
      ensures Valid() && next == old(next) + Size(t) && Grows(old(idMapping), idMapping)
      ensures idMapping.Keys == old(idMapping).Keys + Ids(t) && c == Renaming(t, idMapping, parent)
      decreases t
    {
      var id := Assign(t.task.id);
      var children := ResetEach(t.children, Some(id));
      c := Tree(t.task.(id := id, parent := parent), children);
    }

    method ResetEach(trees: seq<Tree<Task>>, parent: Option<Id>) returns (c: seq<Tree<Task>>)
      requires Valid() && EachUnique(trees) && EachIds(trees) !! idMapping.Keys && next + EachSize(trees) <= |generated|
      modifies this
      ensures Valid() && next == old(next) + EachSize(trees) && Grows(old(idMapping), idMapping)
      ensures idMapping.Keys == old(idMapping).Keys + EachIds(trees) && c == EachRenaming(trees, idMapping, parent)
      decreases trees
    {
      if trees == [] {
        return [];
      }
      var first := Reset(trees[0], parent);
      ghost var midway := idMapping;
      assert EachIds(trees[1..]) !! midway.Keys;
      var rest := ResetEach(trees[1..], parent);
      RenamingIsStable(trees[0], midway, idMapping, parent);
      c := [first] + rest;
    }

    /** _clone_task_tree: an independent tree of the same shape, with generated identifiers throughout. */
    method Clone(t: Tree<Task>) returns (c: Tree<Task>)
      requires Valid() && Unique(t) && idMapping == map[] && next + Size(t) <= |generated|
      requires Avoids(t, set g | g in generated)
      modifies this
      ensures Valid() && idMapping.Keys == Ids(t) && IsCloneOf(t, c, idMapping, None, idMapping[t.task.id])
    {
      var renamed := Reset(t, None);
      var treeId := renamed.task.id;
      ghost var names := set g | g in generated;
      PassesAvoid(t, idMapping, None, treeId, names);
      assert forall id :: id in idMapping ==> idMapping[id] in names;
      PassesCompose(t, idMapping, None, treeId);
      c := FixTree(Stamping(renamed, treeId), idMapping, names);
    }
  }

  /** _clone_task_tree_dependency_fix: each task's list, then its children. */
  method FixTree(t: Tree<Task>, ids: map<Id, Id>, ghost names: set<Id>) returns (c: Tree<Task>)
    requires Avoids(t, names) && forall id :: id in ids ==> ids[id] in names
    ensures c == Fixing(t, ids)
    decreases t, 0
  {
    var list := new DependencyList(t.task.dependencies);
    list.Fix(ids);
    var children := FixEach(t.children, ids, names);
    c := Tree(t.task.(dependencies := list.items), children);
  }

  method FixEach(trees: seq<Tree<Task>>, ids: map<Id, Id>, ghost names: set<Id>) returns (c: seq<Tree<Task>>)
    requires EachAvoids(trees, names) && forall id :: id in ids ==> ids[id] in names
    ensures c == EachFixing(trees, ids)
    decreases trees
  {
    if trees == [] {
      return [];
    }
    var first := FixTree(trees[0], ids, names);
    var rest := FixEach(trees[1..], ids, names);
    c := [first] + rest;
  }

  // ----- What a clone is --------------------------------------------------------------------

  ghost function Images(s: set<Id>, ids: map<Id, Id>): set<Id> {
    set id | id in s && id in ids :: ids[id]
  }

  /** A clone has the images of the identifiers, each once. */
  lemma {:induction false} CloneHasNewIds(t: Tree<Task>, c: Tree<Task>, ids: map<Id, Id>, parent: Option<Id>, treeId: Id)
    requires IsCloneOf(t, c, ids, parent, treeId)
    ensures Ids(t) <= ids.Keys && Ids(c) == Images(Ids(t), ids)
    ensures Unique(t) && Injective(ids) ==> Unique(c)
    decreases t, 0
  {
    EachCloneHasNewIds(t.children, c.children, ids, Some(c.task.id), treeId);
    assert Images(Ids(t), ids) == {ids[t.task.id]} + Images(EachIds(t.children), ids);
  }

  lemma {:induction false} EachCloneHasNewIds(ts: seq<Tree<Task>>, cs: seq<Tree<Task>>, ids: map<Id, Id>, parent: Option<Id>, treeId: Id)
    requires |ts| == |cs| && forall i :: 0 <= i < |ts| ==> IsCloneOf(ts[i], cs[i], ids, parent, treeId)
    ensures EachIds(ts) <= ids.Keys && EachIds(cs) == Images(EachIds(ts), ids)
    ensures EachUnique(ts) && Injective(ids) ==> EachUnique(cs)
    decreases ts
  {
    if ts != [] {
      CloneHasNewIds(ts[0], cs[0], ids, parent, treeId);
      EachCloneHasNewIds(ts[1..], cs[1..], ids, parent, treeId);
      assert Images(EachIds(ts), ids) == Images(Ids(ts[0]), ids) + Images(EachIds(ts[1..]), ids);
    }
  }

  /** Every dependency of a cloned task that repeats nothing missing around a kept one leads into the clone. */
  lemma {:induction false} RemappedStaysInside(deps: seq<Dependency>, ids: map<Id, Id>, d: Dependency)
    requires d in Remapped(deps, ids) && Reference(d).Some?
    ensures Reference(d).value in ids.Values
  {
    var head := if Missing(deps[0], ids) then [] else [Renamed(deps[0], ids)];
    if d !in head {
      RemappedStaysInside(deps[1..], ids, d);
    }
  }

  /** So a clone is self-contained exactly as far as the fix is right. */
  lemma {:induction false} CloneIsSelfContained(t: Tree<Task>, c: Tree<Task>, ids: map<Id, Id>, treeId: Id, d: Dependency)
    requires IsCloneOf(t, c, ids, None, treeId) && Ids(t) == ids.Keys && NothingKeptBetween(t.task.dependencies, ids)
    requires d in c.task.dependencies && Reference(d).Some?
    ensures c.task.dependencies == Remapped(t.task.dependencies, ids) && Reference(d).value in Ids(c)
  {
    FixIsRight(t.task.dependencies, ids);
    RemappedStaysInside(t.task.dependencies, ids, d);
    CloneHasNewIds(t, c, ids, None, treeId);
  }
}
