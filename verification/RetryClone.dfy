/** Cloning the retained nodes of a run into a fresh tree. */
module RetryClone {
  import opened Prelude
  import opened DependencyGraph
  import opened RunRetry
  import opened RetryRecomputation

  datatype Origin = Copy | Link

  datatype Clone = Clone(row: Task, source: Id, run: Id, tree: Id, origin: Origin, hasChildren: bool)

  /** uuid4 values: one per retained node, all different, none of them an existing id. */
  ghost predicate FreshIdentifiers(identifiers: map<Id, Id>, required: set<Id>, rows: Tasks) {
    && identifiers.Keys == required
    && (forall n :: n in identifiers ==> identifiers[n] !in rows)
    && (forall m, n :: m in identifiers && n in identifiers && identifiers[m] == identifiers[n] ==> m == n)
  }

  ghost predicate SingleRoot(rows: Tasks, root: Id) {
    && root in rows && rows[root].parent.None?
    && (forall n :: n in rows && rows[n].parent.None? ==> n == root)
  }

  function Rename(dependency: Dependency, identifiers: map<Id, Id>): (renamed: Dependency)
    requires dependency.id in identifiers
    ensures renamed.id == identifiers[dependency.id] && renamed.Entry? == dependency.Entry?
    ensures renamed.Entry? ==> renamed.fields == dependency.fields
  {
    dependency.(id := identifiers[dependency.id])
  }

  /** Rewrites a copied dependency list entry by entry; fails exactly on an id without a clone. */
  method RemapDependencies(task: Task, identifiers: map<Id, Id>) returns (r: Result<seq<Dependency>, Id>)
    ensures r.Success? <==> DependencyIds(task) <= identifiers.Keys
    ensures r.Success? ==> Renamed(task.dependencies, r.value, identifiers)
    ensures r.Failure? ==> r.error in DependencyIds(task) && r.error !in identifiers
  {
    var dependencies := task.dependencies;
    for index := 0 to |dependencies|
      invariant |dependencies| == |task.dependencies|
      invariant forall i :: index <= i < |dependencies| ==> dependencies[i] == task.dependencies[i]
      invariant forall i :: 0 <= i < index ==>
        task.dependencies[i].id in identifiers && dependencies[i] == Rename(task.dependencies[i], identifiers)
    {
      var dependency := dependencies[index];
      if dependency.id !in identifiers {
        assert dependency in task.dependencies;
        return Failure(dependency.id);
      }
      dependencies := dependencies[index := Rename(dependency, identifiers)];
    }
    r := Success(dependencies);
    forall d | d in DependencyIds(task) ensures d in identifiers {
      var i :| 0 <= i < |task.dependencies| && task.dependencies[i].id == d;
    }
  }

  /** What every clone of one retry shares. */
  datatype Plan = Plan(required: set<Id>, execute: set<Id>, identifiers: map<Id, Id>, root: Id, parents: set<Option<Id>>)

  function ParentsOf(tasks: seq<Task>, required: set<Id>): set<Option<Id>> {
    set task | task in tasks && task.id in required :: task.parent
  }

  ghost predicate WellPlanned(tasks: seq<Task>, plan: Plan) {
    && DistinctIds(tasks) && Retainable(ById(tasks), plan.required)
    && SingleRoot(ById(tasks), plan.root) && plan.root in plan.required
    && FreshIdentifiers(plan.identifiers, plan.required, ById(tasks))
    && plan.parents == ParentsOf(tasks, plan.required)
  }

  /** The row a retained node is cloned into. */
  ghost predicate IsClone(task: Task, clone: Clone, plan: Plan) {
    && task.id in plan.identifiers && plan.root in plan.identifiers
    && clone.source == task.id
    && clone.run == plan.identifiers[plan.root] && clone.tree == plan.identifiers[plan.root]
    && clone.hasChildren == (Some(task.id) in plan.parents)
    && clone.row.id == plan.identifiers[task.id]
    && clone.row.original == Some(if task.original.Some? then task.original.value else task.id)
    && clone.row.parent == (if task.parent.Some? && task.parent.value in plan.identifiers
                            then Some(plan.identifiers[task.parent.value]) else None)
    && Renamed(task.dependencies, clone.row.dependencies, plan.identifiers)
    && (if task.status == Completed && task.id !in plan.execute
        then clone.origin == Link && clone.row.status == Completed && clone.row.result == task.result
        else clone.origin == Copy && clone.row.status == Pending && clone.row.result == "")
  }

  ghost predicate Renamed(before: seq<Dependency>, after: seq<Dependency>, identifiers: map<Id, Id>) {
    && |after| == |before|
    && (forall i :: 0 <= i < |before| ==> before[i].id in identifiers && after[i] == Rename(before[i], identifiers))
  }

  /** Clone j copies row picked[j]; of the first n rows exactly the retained ones are picked, in order. */
  ghost predicate ClonesUpTo(tasks: seq<Task>, n: nat, picked: seq<nat>, clones: seq<Clone>, plan: Plan) {
    && n <= |tasks| && |picked| == |clones|
    && (forall j :: 0 <= j < |picked| ==> picked[j] < n && IsClone(tasks[picked[j]], clones[j], plan))
    && (forall j, k :: 0 <= j < k < |picked| ==> picked[j] < picked[k])
    && (forall i :: 0 <= i < n ==> (i in picked <==> tasks[i].id in plan.required))
  }

  ghost predicate ClonesOf(tasks: seq<Task>, picked: seq<nat>, clones: seq<Clone>, plan: Plan) {
    ClonesUpTo(tasks, |tasks|, picked, clones, plan)
  }

  /** The fields a cloned row is given, in place of the source row's. */
  function MakeClone(source: Task, dependencies: seq<Dependency>, plan: Plan): (clone: Clone)
    requires source.id in plan.identifiers && plan.root in plan.identifiers
    requires Renamed(source.dependencies, dependencies, plan.identifiers)
    ensures IsClone(source, clone, plan)
  {
    var reused := source.status == Completed && source.id !in plan.execute;
    var parent := if source.parent.Some? && source.parent.value in plan.identifiers
      then Some(plan.identifiers[source.parent.value]) else None;
    var original := Some(if source.original.Some? then source.original.value else source.id);
    var row := if reused
      then Task(plan.identifiers[source.id], parent, dependencies, Completed, source.result, original)
      else Task(plan.identifiers[source.id], parent, dependencies, Pending, "", original);
    Clone(row, source.id, plan.identifiers[plan.root], plan.identifiers[plan.root],
      if reused then Link else Copy, Some(source.id) in plan.parents)
  }

  /** Cloning a retainable set never fails; the new root is the clone of the old one. */
  method CloneNodes(tasks: seq<Task>, required: set<Id>, execute: set<Id>, identifiers: map<Id, Id>, ghost root: Id)
      returns (r: Result<(Id, seq<Clone>), Id>, ghost picked: seq<nat>, ghost plan: Plan)
    requires DistinctIds(tasks) && SingleRoot(ById(tasks), root) && root in required
    requires Retainable(ById(tasks), required) && FreshIdentifiers(identifiers, required, ById(tasks))
    ensures plan.required == required && plan.execute == execute && plan.identifiers == identifiers && plan.root == root
    ensures WellPlanned(tasks, plan)
    ensures r.Success? && r.value.0 == identifiers[root] && ClonesOf(tasks, picked, r.value.1, plan)
  {
    var oldRoot := FindRoot(tasks, root);
    var shared := Plan(required, execute, identifiers, oldRoot, ParentsOf(tasks, required));
    plan := shared;
    RetainedDependencies(tasks, required);
    var clones, where := CloneRows(tasks, shared);
    picked := where;
    r := match clones
      case Success(rows) => Success((identifiers[oldRoot], rows))
      case Failure(id) => Failure(id);
  }

  lemma {:induction false} RetainedDependencies(tasks: seq<Task>, required: set<Id>)
    requires DistinctIds(tasks) && Retainable(ById(tasks), required)
    ensures forall task :: task in tasks && task.id in required ==> DependencyIds(task) <= required
  {
    forall task | task in tasks && task.id in required ensures DependencyIds(task) <= required {
      var i :| 0 <= i < |tasks| && tasks[i] == task;
      ByIdFinds(tasks, i);
    }
  }

  /** The loop over the rows, which stops at the first dependency without a clone. */
  method CloneRows(tasks: seq<Task>, plan: Plan) returns (r: Result<seq<Clone>, Id>, ghost picked: seq<nat>)
    requires plan.root in plan.identifiers && plan.identifiers.Keys == plan.required
    ensures r.Success? ==> ClonesOf(tasks, picked, r.value, plan)
    ensures r.Success? <==> forall task :: task in tasks && task.id in plan.required ==> DependencyIds(task) <= plan.required
  {
    var clones := [];
    picked := [];
    for i := 0 to |tasks|
      invariant ClonesUpTo(tasks, i, picked, clones, plan)
      invariant forall k :: 0 <= k < i && tasks[k].id in plan.required ==> DependencyIds(tasks[k]) <= plan.required
    {
      var source := tasks[i];
      if source.id in plan.required {
        var dependencies := RemapDependencies(source, plan.identifiers);
        if dependencies.Failure? {
          return Failure(dependencies.error), picked;
        }
        var clone := MakeClone(source, dependencies.value, plan);
        clones := clones + [clone];
        picked := picked + [i];
      }
    }
    r := Success(clones);
  }

  /** The first row without a parent. */
  method FindRoot(tasks: seq<Task>, ghost root: Id) returns (id: Id)
    requires DistinctIds(tasks) && SingleRoot(ById(tasks), root)
    ensures id == root
  {
    ghost var j :| 0 <= j < |tasks| && tasks[j] == ById(tasks)[root];
    for i := 0 to |tasks|
      invariant i <= j
    {
      if tasks[i].parent.None? {
        ByIdFinds(tasks, i);
        return tasks[i].id;
      }
    }
    assert false;
    id := Id("");
  }

  // ----- What the clones are ----------------------------------------------------------------

  function RowsOf(clones: seq<Clone>): (rows: seq<Task>)
    ensures |rows| == |clones| && forall i :: 0 <= i < |clones| ==> rows[i] == clones[i].row
  {
    seq(|clones|, i requires 0 <= i < |clones| => clones[i].row)
  }

  lemma ClonesHaveDistinctIds(tasks: seq<Task>, picked: seq<nat>, clones: seq<Clone>, plan: Plan)
    requires WellPlanned(tasks, plan) && ClonesOf(tasks, picked, clones, plan)
    ensures DistinctIds(RowsOf(clones))
  {
    forall j, k | 0 <= j < k < |clones| ensures clones[j].row.id != clones[k].row.id {
      assert tasks[picked[j]].id != tasks[picked[k]].id;
    }
  }

  /** Looking a clone up by its new id finds the clone of that very row. */
  lemma CloneOfRow(tasks: seq<Task>, picked: seq<nat>, clones: seq<Clone>, plan: Plan, n: Id) returns (j: nat)
    requires WellPlanned(tasks, plan) && ClonesOf(tasks, picked, clones, plan) && n in plan.required
    ensures n in ById(tasks) && j < |clones| && IsClone(ById(tasks)[n], clones[j], plan)
    ensures plan.identifiers[n] in ById(RowsOf(clones))
    ensures ById(RowsOf(clones))[plan.identifiers[n]] == clones[j].row
  {
    var rows := ById(tasks);
    var i :| 0 <= i < |tasks| && tasks[i] == rows[n];
    assert i in picked;
    j :| 0 <= j < |picked| && picked[j] == i;
    ClonesHaveDistinctIds(tasks, picked, clones, plan);
    ByIdFinds(RowsOf(clones), j);
  }

  ghost function Image(ids: set<Id>, identifiers: map<Id, Id>): set<Id> {
    set n | n in ids && n in identifiers :: identifiers[n]
  }

  lemma RowOfClone(tasks: seq<Task>, picked: seq<nat>, clones: seq<Clone>, plan: Plan, j: nat) returns (n: Id)
    requires WellPlanned(tasks, plan) && ClonesOf(tasks, picked, clones, plan) && j < |clones|
    ensures n in plan.required && n in ById(tasks) && IsClone(ById(tasks)[n], clones[j], plan)
    ensures ById(tasks)[n] in tasks
  {
    var i := picked[j];
    assert i in picked;
    ByIdFinds(tasks, i);
    n := tasks[i].id;
  }

  /** The clones are exactly the images of the retained nodes. */
  lemma CloneIds(tasks: seq<Task>, picked: seq<nat>, clones: seq<Clone>, plan: Plan)
    requires WellPlanned(tasks, plan) && ClonesOf(tasks, picked, clones, plan)
    ensures forall id :: id in ById(RowsOf(clones)) ==> IsImage(id, plan)
    ensures forall n :: n in plan.required ==> plan.identifiers[n] in ById(RowsOf(clones))
  {
    forall id | id in ById(RowsOf(clones)) ensures IsImage(id, plan) {
      CloneIsImage(tasks, picked, clones, plan, id);
    }
    forall n | n in plan.required ensures plan.identifiers[n] in ById(RowsOf(clones)) {
      var j := CloneOfRow(tasks, picked, clones, plan, n);
    }
  }

  ghost predicate IsImage(id: Id, plan: Plan) {
    exists n :: n in plan.required && n in plan.identifiers && plan.identifiers[n] == id
  }

  lemma CloneIsImage(tasks: seq<Task>, picked: seq<nat>, clones: seq<Clone>, plan: Plan, id: Id)
    requires WellPlanned(tasks, plan) && ClonesOf(tasks, picked, clones, plan) && id in ById(RowsOf(clones))
    ensures IsImage(id, plan)
  {
    var rows := RowsOf(clones);
    var j :| 0 <= j < |rows| && rows[j] == ById(rows)[id];
    var n := RowOfClone(tasks, picked, clones, plan, j);
  }

  ghost predicate SameEdges(row: Task, clone: Task, identifiers: map<Id, Id>) {
    && (row.parent.Some? ==> row.parent.value in identifiers && clone.parent == Some(identifiers[row.parent.value]))
    && (row.parent.None? ==> clone.parent == None)
    && DependencyIds(row) <= identifiers.Keys
    && DependencyIds(clone) == Image(DependencyIds(row), identifiers)
  }

  /**
   * The clone of the retained graph: same parent edge, same dependency edges, and the reused nodes are
   * exactly the retained ones that do not run again, with their results.
   */
  lemma {:induction false} CloneIsomorphism(tasks: seq<Task>, picked: seq<nat>, clones: seq<Clone>, plan: Plan, n: Id)
    requires WellPlanned(tasks, plan) && ClonesOf(tasks, picked, clones, plan) && n in plan.required
    requires forall m :: m in plan.required - plan.execute ==> ById(tasks)[m].status == Completed
    ensures var row := ById(tasks)[n];
      var id := plan.identifiers[n];
      var cloned := ById(RowsOf(clones));
      && id in cloned
      && SameEdges(row, cloned[id], plan.identifiers)
      && (cloned[id].status == Completed <==> n !in plan.execute)
      && (n !in plan.execute ==> cloned[id].result == row.result)
  {
    var j := CloneOfRow(tasks, picked, clones, plan, n);
    var row := ById(tasks)[n];
    RenamedIds(row, clones[j].row, plan.identifiers);
  }

  lemma RenamedIds(before: Task, after: Task, identifiers: map<Id, Id>)
    requires Renamed(before.dependencies, after.dependencies, identifiers)
    ensures DependencyIds(after) == Image(DependencyIds(before), identifiers)
  {
    forall d | d in DependencyIds(after) ensures d in Image(DependencyIds(before), identifiers) {
      var i :| 0 <= i < |after.dependencies| && after.dependencies[i].id == d;
      assert before.dependencies[i] in before.dependencies;
    }
    forall d | d in Image(DependencyIds(before), identifiers) ensures d in DependencyIds(after) {
      var n :| n in DependencyIds(before) && n in identifiers && identifiers[n] == d;
      var i :| 0 <= i < |before.dependencies| && before.dependencies[i].id == n;
      assert after.dependencies[i] in after.dependencies;
    }
  }

  /** A clone is marked as having children exactly when some clone names it as parent. */
  lemma HasChildrenExact(tasks: seq<Task>, picked: seq<nat>, clones: seq<Clone>, plan: Plan, j: nat)
    requires WellPlanned(tasks, plan) && ClonesOf(tasks, picked, clones, plan) && j < |clones|
    ensures clones[j].hasChildren <==> exists k :: 0 <= k < |clones| && clones[k].row.parent == Some(clones[j].row.id)
  {
    var me := RowOfClone(tasks, picked, clones, plan, j);
    if clones[j].hasChildren {
      var child :| child in tasks && child.id in plan.required && child.parent == Some(me);
      var i :| 0 <= i < |tasks| && tasks[i] == child;
      ByIdFinds(tasks, i);
      var k := CloneOfRow(tasks, picked, clones, plan, child.id);
      assert clones[k].row.parent == Some(clones[j].row.id);
    }
    if k :| 0 <= k < |clones| && clones[k].row.parent == Some(clones[j].row.id) {
      var child := RowOfClone(tasks, picked, clones, plan, k);
      assert ById(tasks)[child].parent == Some(me);
    }
  }

  // ----- The derived graph ------------------------------------------------------------------

  /**
   * A graph isomorphism: identifiers and inverse are two-sided inverses between the retained nodes and
   * the clones, and both kinds of edges are carried over.
   */
  ghost predicate Isomorphic(rows: Tasks, required: set<Id>, cloned: Tasks, identifiers: map<Id, Id>, inverse: map<Id, Id>) {
    && identifiers.Keys == required && inverse.Keys == cloned.Keys
    && (forall n :: n in identifiers ==> identifiers[n] in inverse && inverse[identifiers[n]] == n)
    && (forall id :: id in inverse ==> inverse[id] in identifiers && identifiers[inverse[id]] == id)
    && (forall n :: n in identifiers ==> n in rows && SameEdges(rows[n], cloned[identifiers[n]], identifiers))
  }

  /** The cloned rows are isomorphic to the retained part of the source graph. */
  lemma ClonesAreIsomorphic(tasks: seq<Task>, picked: seq<nat>, clones: seq<Clone>, plan: Plan) returns (inverse: map<Id, Id>)
    requires WellPlanned(tasks, plan) && ClonesOf(tasks, picked, clones, plan)
    requires forall m :: m in plan.required - plan.execute ==> ById(tasks)[m].status == Completed
    ensures Isomorphic(ById(tasks), plan.required, ById(RowsOf(clones)), plan.identifiers, inverse)
  {
    EdgesCarryOver(tasks, picked, clones, plan);
    CloneIds(tasks, picked, clones, plan);
    inverse := Invert(ById(tasks), plan.required, ById(RowsOf(clones)), plan.identifiers);
  }

  lemma {:induction false} EdgesCarryOver(tasks: seq<Task>, picked: seq<nat>, clones: seq<Clone>, plan: Plan)
    requires WellPlanned(tasks, plan) && ClonesOf(tasks, picked, clones, plan)
    requires forall m :: m in plan.required - plan.execute ==> ById(tasks)[m].status == Completed
    ensures forall n :: n in plan.required ==>
      (&& n in ById(tasks) && plan.identifiers[n] in ById(RowsOf(clones))
       && SameEdges(ById(tasks)[n], ById(RowsOf(clones))[plan.identifiers[n]], plan.identifiers))
  {
    forall n | n in plan.required
      ensures n in ById(tasks) && plan.identifiers[n] in ById(RowsOf(clones))
      ensures SameEdges(ById(tasks)[n], ById(RowsOf(clones))[plan.identifiers[n]], plan.identifiers)
    {
      CloneIsomorphism(tasks, picked, clones, plan, n);
    }
  }

  lemma Invert(rows: Tasks, required: set<Id>, cloned: Tasks, identifiers: map<Id, Id>) returns (inverse: map<Id, Id>)
    requires identifiers.Keys == required
    requires forall m, n :: m in identifiers && n in identifiers && identifiers[m] == identifiers[n] ==> m == n
    requires forall id :: id in cloned ==> exists n :: n in required && identifiers[n] == id
    requires forall n :: n in required ==>
      n in rows && identifiers[n] in cloned && SameEdges(rows[n], cloned[identifiers[n]], identifiers)
    ensures Isomorphic(rows, required, cloned, identifiers, inverse)
  {
    inverse := map id | id in cloned :: var n :| n in required && identifiers[n] == id; n;
  }

  /** Parent chains carry over, so the clone has no parent cycle. */
  lemma {:induction false} ChainsCarryOver(
      rows: Tasks, required: set<Id>, cloned: Tasks, identifiers: map<Id, Id>, inverse: map<Id, Id>,
      p: Option<Id>, chain: seq<Id>)
    requires Isomorphic(rows, required, cloned, identifiers, inverse)
    requires p.Some? ==> p.value in required
    requires ParentChain(rows, p, chain)
    ensures ReachesRoot(cloned, if p.Some? then Some(identifiers[p.value]) else None)
    decreases |chain|
  {
    if p.None? {
      assert ParentChain(cloned, None, []);
    } else {
      var up := rows[p.value].parent;
      assert SameEdges(rows[p.value], cloned[identifiers[p.value]], identifiers);
      ChainsCarryOver(rows, required, cloned, identifiers, inverse, up, chain[1..]);
      var upper := cloned[identifiers[p.value]].parent;
      var rest :| ParentChain(cloned, upper, rest);
      var whole := [identifiers[p.value]] + rest;
      assert whole[1..] == rest;
      assert ParentChain(cloned, Some(identifiers[p.value]), whole);
    }
  }

  /** The derived tree is well formed: closed, every parent chain ending, and exactly one root. */
  lemma CloneIsTree(
      rows: Tasks, required: set<Id>, cloned: Tasks, identifiers: map<Id, Id>, inverse: map<Id, Id>, root: Id)
    requires Isomorphic(rows, required, cloned, identifiers, inverse)
    requires Retainable(rows, required) && SingleRoot(rows, root) && root in required
    ensures Retainable(cloned, cloned.Keys) && SingleRoot(cloned, identifiers[root])
  {
    forall id | id in cloned
      ensures DependencyIds(cloned[id]) <= cloned.Keys && ReachesRoot(cloned, cloned[id].parent)
      ensures cloned[id].parent.Some? ==> cloned[id].parent.value in cloned
      ensures cloned[id].parent.None? ==> id == identifiers[root]
    {
      var n := inverse[id];
      assert SameEdges(rows[n], cloned[identifiers[n]], identifiers);
      var chain :| ParentChain(rows, rows[n].parent, chain);
      ChainsCarryOver(rows, required, cloned, identifiers, inverse, rows[n].parent, chain);
    }
    assert SameEdges(rows[root], cloned[identifiers[root]], identifiers);
  }

  ghost function RenameAll(order: seq<Id>, identifiers: map<Id, Id>): (renamed: seq<Id>)
    requires forall n :: n in order ==> n in identifiers
    ensures |renamed| == |order| && forall i :: 0 <= i < |order| ==> renamed[i] == identifiers[order[i]]
  {
    seq(|order|, i requires 0 <= i < |order| => identifiers[order[i]])
  }

  lemma RenamedDependencyEarlier(
      rows: Tasks, required: set<Id>, cloned: Tasks, identifiers: map<Id, Id>, inverse: map<Id, Id>,
      order: seq<Id>, i: nat, d: Id)
    requires Isomorphic(rows, required, cloned, identifiers, inverse)
    requires IsDependencyOrder(EdgeMap(rows), required, order)
    requires i < |order| && d in DependencyIds(cloned[identifiers[order[i]]])
    ensures d in RenameAll(order, identifiers)[..i]
  {
    var n := order[i];
    assert n in required && SameEdges(rows[n], cloned[identifiers[n]], identifiers);
    var m :| m in DependencyIds(rows[n]) && m in identifiers && identifiers[m] == d;
    assert m in EdgeMap(rows)[order[i]];
    var k :| 0 <= k < i && order[..i][k] == m;
    assert RenameAll(order, identifiers)[..i][k] == d;
  }

  /** An execution order of the retained nodes renames to one of the clones: no dependency cycle appears. */
  lemma CloneHasNoCycle(
      rows: Tasks, required: set<Id>, cloned: Tasks, identifiers: map<Id, Id>, inverse: map<Id, Id>, order: seq<Id>)
    requires Isomorphic(rows, required, cloned, identifiers, inverse)
    requires IsDependencyOrder(EdgeMap(rows), required, order)
    ensures IsDependencyOrder(EdgeMap(cloned), cloned.Keys, RenameAll(order, identifiers))
    ensures !HasCycle(EdgeMap(cloned))
  {
    var renamed := RenameAll(order, identifiers);
    forall id | id in cloned ensures id in renamed {
      var i :| 0 <= i < |order| && order[i] == inverse[id];
      assert renamed[i] == id;
    }
    forall id | id in renamed ensures id in cloned {
      var i :| 0 <= i < |renamed| && renamed[i] == id;
      assert order[i] in required;
    }
    forall i, d | 0 <= i < |renamed| && renamed[i] in EdgeMap(cloned) && d in EdgeMap(cloned)[renamed[i]]
      ensures d in renamed[..i]
    {
      RenamedDependencyEarlier(rows, required, cloned, identifiers, inverse, order, i, d);
    }
    forall i, j | 0 <= i < j < |renamed| ensures renamed[i] != renamed[j] {
      assert order[i] in required && order[j] in required;
      assert inverse[renamed[i]] == order[i] && inverse[renamed[j]] == order[j];
    }
    OrderExcludesCycles(EdgeMap(cloned), renamed);
  }
}
