/** Deriving a retry run: which nodes are kept, which run again, and the cloned graph. */
module RunRetry {
  import opened Prelude
  import opened DependencyGraph

  /** A dependency is a bare id or a dictionary whose other entries travel with it. */
  datatype Dependency = Bare(id: Id) | Entry(id: Id, fields: map<string, string>)

  datatype Task = Task(
    id: Id,
    parent: Option<Id>,
    dependencies: seq<Dependency>,
    status: Status,
    result: string,
    original: Option<Id>)

  type Tasks = map<Id, Task>

  function DependencyIds(task: Task): set<Id> {
    set dependency | dependency in task.dependencies :: dependency.id
  }

  ghost predicate DistinctIds(tasks: seq<Task>) {
    forall i, j :: 0 <= i < j < |tasks| ==> tasks[i].id != tasks[j].id
  }

  /** The dictionary comprehension that indexes the rows by id. */
  function ById(tasks: seq<Task>): (rows: Tasks)
    ensures forall id :: id in rows ==> rows[id] in tasks && rows[id].id == id
    ensures forall task :: task in tasks ==> task.id in rows
  {
    if tasks == [] then map[] else
      var last := |tasks| - 1;
      assert forall task :: task in tasks ==> task in tasks[..last] || task == tasks[last];
      ById(tasks[..last])[tasks[last].id := tasks[last]]
  }

  lemma {:induction false} ByIdFinds(tasks: seq<Task>, i: nat)
    requires DistinctIds(tasks) && i < |tasks|
    ensures tasks[i].id in ById(tasks) && ById(tasks)[tasks[i].id] == tasks[i]
  {
    if i < |tasks| - 1 {
      ByIdFinds(tasks[..|tasks| - 1], i);
    }
  }

  // ----- Closures ---------------------------------------------------------------------------

  /** Every node of scope that depends on a member is a member. */
  ghost predicate DownClosed(rows: Tasks, scope: set<Id>, s: set<Id>) {
    forall n, d :: n in scope && n in rows && d in DependencyIds(rows[n]) && d in s ==> n in s
  }

  ghost predicate LeastDownstream(rows: Tasks, scope: set<Id>, seed: set<Id>, s: set<Id>) {
    && seed <= s && DownClosed(rows, scope, s)
    && (forall t: set<Id> :: seed <= t && DownClosed(rows, scope, t) ==> s <= t)
  }

  /** Dependencies and parents of members are members. */
  ghost predicate UpClosed(rows: Tasks, s: set<Id>) {
    forall n :: n in s && n in rows ==>
      DependencyIds(rows[n]) <= s && (rows[n].parent.Some? ==> rows[n].parent.value in s)
  }

  ghost predicate LeastRetained(rows: Tasks, seed: set<Id>, s: set<Id>) {
    && seed <= s && UpClosed(rows, s)
    && (forall t: set<Id> :: seed <= t && UpClosed(rows, t) ==> s <= t)
  }

  /** The parent pointers starting at p visit exactly chain and then end. */
  ghost predicate ParentChain(rows: Tasks, p: Option<Id>, chain: seq<Id>)
    decreases |chain|
  {
    if p.None? then chain == []
    else chain != [] && chain[0] == p.value && p.value in rows && ParentChain(rows, rows[p.value].parent, chain[1..])
  }

  ghost predicate ReachesRoot(rows: Tasks, p: Option<Id>) {
    exists chain :: ParentChain(rows, p, chain)
  }

  /** A set of nodes a retry can be built from: inside the snapshot, closed, every parent chain ending. */
  ghost predicate Retainable(rows: Tasks, s: set<Id>) {
    && s <= rows.Keys && UpClosed(rows, s)
    && (forall n :: n in s ==> ReachesRoot(rows, rows[n].parent))
  }

  lemma {:induction false} ChainUnique(rows: Tasks, p: Option<Id>, c1: seq<Id>, c2: seq<Id>)
    requires ParentChain(rows, p, c1) && ParentChain(rows, p, c2)
    ensures c1 == c2
    decreases |c1|
  {
    if p.Some? {
      ChainUnique(rows, rows[p.value].parent, c1[1..], c2[1..]);
      assert c1 == [c1[0]] + c1[1..];
      assert c2 == [c2[0]] + c2[1..];
    }
  }

  lemma {:induction false} ChainSuffix(rows: Tasks, p: Option<Id>, chain: seq<Id>, j: nat)
    requires ParentChain(rows, p, chain) && j < |chain|
    ensures ParentChain(rows, Some(chain[j]), chain[j..])
    decreases j
  {
    if j == 0 {
      assert chain[0..] == chain;
    } else {
      ChainSuffix(rows, rows[p.value].parent, chain[1..], j - 1);
      assert chain[1..][j - 1..] == chain[j..];
    }
  }

  // ----- The worklists ----------------------------------------------------------------------

  ghost predicate ClosedUnder(dependents: map<Id, set<Id>>, s: set<Id>) {
    forall n :: n in s && n in dependents ==> dependents[n] <= s
  }

  ghost predicate ReverseEdges(rows: Tasks, scope: set<Id>, dependents: map<Id, set<Id>>) {
    && (forall d, n :: d in dependents && n in dependents[d] ==>
          n in scope && n in rows && d in DependencyIds(rows[n]))
    && (forall n, d :: n in scope && n in rows && d in DependencyIds(rows[n]) ==>
          d in dependents && n in dependents[d])
  }

  lemma ReverseEdgesClose(rows: Tasks, scope: set<Id>, dependents: map<Id, set<Id>>, s: set<Id>)
    requires ReverseEdges(rows, scope, dependents)
    ensures ClosedUnder(dependents, s) <==> DownClosed(rows, scope, s)
  {
    if DownClosed(rows, scope, s) {
      forall d | d in s && d in dependents ensures dependents[d] <= s {
        forall n | n in dependents[d] ensures n in s {
          assert d in DependencyIds(rows[n]);
        }
      }
    }
  }

  function AddEdges(dependents: map<Id, set<Id>>, ids: set<Id>, id: Id): map<Id, set<Id>> {
    map d | d in dependents.Keys + ids ::
      (if d in dependents then dependents[d] else {}) + (if d in ids then {id} else {})
  }

  lemma AddEdgesExtends(rows: Tasks, scope: set<Id>, dependents: map<Id, set<Id>>, task: Task)
    requires ReverseEdges(rows, scope, dependents) && task.id !in rows
    ensures ReverseEdges(rows[task.id := task], scope,
      if task.id in scope then AddEdges(dependents, DependencyIds(task), task.id) else dependents)
  {
    var more := rows[task.id := task];
    if task.id in scope {
      var ids := DependencyIds(task);
      var added := AddEdges(dependents, ids, task.id);
      forall d, n | d in added && n in added[d] ensures n in scope && n in more && d in DependencyIds(more[n]) {
        assert (d in dependents && n in dependents[d]) || (d in ids && n == task.id);
      }
      forall n, d | n in scope && n in more && d in DependencyIds(more[n]) ensures d in added && n in added[d] {
        assert n == task.id || (d in dependents && n in dependents[d]);
      }
    }
  }

  lemma {:induction false} ByIdStep(tasks: seq<Task>, i: nat)
    requires DistinctIds(tasks) && i < |tasks|
    ensures tasks[i].id !in ById(tasks[..i])
    ensures ById(tasks[..i + 1]) == ById(tasks[..i])[tasks[i].id := tasks[i]]
  {
    assert tasks[..i + 1][..i] == tasks[..i];
  }

  /** The reverse edges of the tasks in scope, so that being closed under them is DownClosed. */
  method Dependents(tasks: seq<Task>, scope: set<Id>) returns (dependents: map<Id, set<Id>>)
    requires DistinctIds(tasks)
    ensures ReverseEdges(ById(tasks), scope, dependents)
    ensures forall s: set<Id> :: ClosedUnder(dependents, s) <==> DownClosed(ById(tasks), scope, s)
  {
    dependents := map[];
    for i := 0 to |tasks|
      invariant ReverseEdges(ById(tasks[..i]), scope, dependents)
    {
      var task := tasks[i];
      ByIdStep(tasks, i);
      AddEdgesExtends(ById(tasks[..i]), scope, dependents, task);
      if task.id in scope {
        dependents := AddEdges(dependents, DependencyIds(task), task.id);
      }
    }
    assert tasks[..|tasks|] == tasks;
    forall s: set<Id> ensures ClosedUnder(dependents, s) <==> DownClosed(ById(tasks), scope, s) {
      ReverseEdgesClose(ById(tasks), scope, dependents, s);
    }
  }

  /** Every closed superset of the seed contains s. */
  ghost predicate WithinClosures(dependents: map<Id, set<Id>>, seed: set<Id>, s: set<Id>) {
    forall t: set<Id> :: seed <= t && ClosedUnder(dependents, t) ==> s <= t
  }

  lemma WithinClosuresGrows(dependents: map<Id, set<Id>>, seed: set<Id>, s: set<Id>, n: Id, additions: set<Id>)
    requires WithinClosures(dependents, seed, s) && n in s
    requires additions <= if n in dependents then dependents[n] else {}
    ensures WithinClosures(dependents, seed, s + additions)
  {
    forall t: set<Id> | seed <= t && ClosedUnder(dependents, t) ensures s + additions <= t {
      assert s <= t;
    }
  }

  /** Closures over the reverse edges are the least downstream sets. */
  lemma ClosureIsDownstream(rows: Tasks, scope: set<Id>, dependents: map<Id, set<Id>>, seed: set<Id>, closed: set<Id>)
    requires forall s: set<Id> :: ClosedUnder(dependents, s) <==> DownClosed(rows, scope, s)
    requires seed <= closed && ClosedUnder(dependents, closed) && WithinClosures(dependents, seed, closed)
    ensures LeastDownstream(rows, scope, seed, closed)
  {
    forall t: set<Id> | seed <= t && DownClosed(rows, scope, t) ensures closed <= t {
      assert ClosedUnder(dependents, t);
    }
  }

  lemma GrowthIsBounded(universe: set<Id>, closed: set<Id>, additions: set<Id>)
    requires additions !! closed && closed + additions <= universe
    ensures additions == {} ==> closed + additions == closed
    ensures additions != {} ==> universe - (closed + additions) < universe - closed
  {
    if additions != {} {
      var x :| x in additions;
      assert x in universe - closed && x !in universe - (closed + additions);
    }
  }

  /** The worklist both selection and execution run over the reverse edges. */
  method CloseOverDependents(dependents: map<Id, set<Id>>, seed: set<Id>, ghost universe: set<Id>)
      returns (closed: set<Id>)
    requires seed <= universe && forall d :: d in dependents ==> dependents[d] <= universe
    ensures seed <= closed <= universe && ClosedUnder(dependents, closed) && WithinClosures(dependents, seed, closed)
  {
    closed := seed;
    var pending := SetToSeq(seed);
    while pending != []
      invariant seed <= closed <= universe
      invariant forall n :: n in pending ==> n in closed
      invariant forall n :: n in closed && n in dependents ==> n in pending || dependents[n] <= closed
      invariant WithinClosures(dependents, seed, closed)
      decreases universe - closed, |pending|
    {
      var last := pending[|pending| - 1];
      var rest := pending[..|pending| - 1];
      assert pending == rest + [last];
      var additions := (if last in dependents then dependents[last] else {}) - closed;
      var extra := SetToSeq(additions);
      ghost var before := closed;
      WithinClosuresGrows(dependents, seed, closed, last, additions);
      closed := closed + additions;
      pending := rest + extra;
      GrowthIsBounded(universe, before, additions);
    }
  }

  datatype SelectError = NotInRun | OutsideSnapshot | InvalidStructure

  /**
   * Selected nodes and everything downstream of them, then everything those need: the least set that
   * contains them and is closed under dependencies and parents, or an error exactly when no retainable
   * set contains them.
   */
  method SelectNodes(tasks: seq<Task>, selected: Option<seq<Id>>)
      returns (r: Result<set<Id>, SelectError>, ghost affected: set<Id>)
    requires DistinctIds(tasks)
    ensures var rows := ById(tasks);
      var seed := if selected.None? then rows.Keys else set id | id in selected.value;
      && ((r.Failure? && r.error.NotInRun?) <==> (seed == {} || !(seed <= rows.Keys)))
      && (seed != {} && seed <= rows.Keys ==> LeastDownstream(rows, rows.Keys, seed, affected) && affected <= rows.Keys)
      && (r.Success? ==> Retainable(rows, r.value) && LeastRetained(rows, affected, r.value))
      && (r.Failure? && !r.error.NotInRun? ==>
            forall s: set<Id> :: affected <= s ==> !Retainable(rows, s))
    ensures var rows := ById(tasks);
      var seed := if selected.None? then rows.Keys else set id | id in selected.value;
      r.Success? ==> forall d: set<Id> :: LeastDownstream(rows, rows.Keys, seed, d) ==> LeastRetained(rows, d, r.value)
  {
    var rows := ById(tasks);
    var required := if selected.None? then rows.Keys else set id | id in selected.value;
    ghost var seed := required;
    affected := required;
    if required == {} || !(required <= rows.Keys) {
      return Failure(NotInRun), affected;
    }
    if selected.Some? {
      var dependents := Dependents(tasks, rows.Keys);
      required := CloseOverDependents(dependents, required, rows.Keys);
      ClosureIsDownstream(rows, rows.Keys, dependents, seed, required);
    }
    affected := required;
    assert LeastDownstream(rows, rows.Keys, seed, affected);
    r := RetainUpstream(rows, required);
  }

  /** The second worklist of the selection: dependencies and whole parent chains. */
  method RetainUpstream(rows: Tasks, seed: set<Id>) returns (r: Result<set<Id>, SelectError>)
    requires seed <= rows.Keys
    ensures r.Success? ==> Retainable(rows, r.value) && LeastRetained(rows, seed, r.value)
    ensures r.Failure? ==> !r.error.NotInRun? && forall s: set<Id> :: seed <= s ==> !Retainable(rows, s)
  {
    var required := seed;
    var pending := SetToSeq(seed);
    while pending != []
      invariant seed <= required <= rows.Keys
      invariant forall n :: n in pending ==> n in required
      invariant forall n :: n in required ==> n in pending || Settled(rows, required, n)
      invariant forall t: set<Id> :: seed <= t && UpClosed(rows, t) ==> required <= t
      decreases rows.Keys - required, |pending|
    {
      var identifier := pending[|pending| - 1];
      var rest := pending[..|pending| - 1];
      assert pending == rest + [identifier];
      var dependencies := DependencyIds(rows[identifier]);
      if !(dependencies <= rows.Keys) {
        forall s: set<Id> | seed <= s ensures !Retainable(rows, s) {
          assert UpClosed(rows, s) ==> identifier in s;
        }
        return Failure(OutsideSnapshot);
      }
      var ancestors, ok := Ancestors(rows, rows[identifier].parent);
      if !ok {
        forall s: set<Id> | seed <= s ensures !Retainable(rows, s) {
          assert UpClosed(rows, s) ==> identifier in s;
        }
        return Failure(InvalidStructure);
      }
      var additions := (dependencies + ancestors) - required;
      forall t: set<Id> | seed <= t && UpClosed(rows, t) ensures required + additions <= t {
        assert identifier in t;
        assert ancestors <= t by { assert rows[identifier].parent.Some? ==> rows[identifier].parent.value in t; }
      }
      ghost var before := required;
      required := required + additions;
      var extra := SetToSeq(additions);
      pending := rest + extra;
      forall n | n in required ensures n in pending || Settled(rows, required, n) {
        if n != identifier && n !in pending {
          assert Settled(rows, before, n);
        }
      }
      if additions == {} {
        assert extra == [] && required == before;
      } else {
        var x :| x in additions;
        assert rows.Keys - required <= rows.Keys - before && x in rows.Keys - before && x !in rows.Keys - required;
      }
    }
    r := Success(required);
  }

  ghost predicate Settled(rows: Tasks, s: set<Id>, n: Id)
    requires n in rows
  {
    && DependencyIds(rows[n]) <= s && ReachesRoot(rows, rows[n].parent)
    && (rows[n].parent.Some? ==> rows[n].parent.value in s)
  }

  /** A walk that comes back, or leaves the rows, is part of no chain to the root. */
  lemma {:induction false} WalkGoesNowhere(rows: Tasks, start: Option<Id>, walked: seq<Id>, parent: Id)
    requires parent in walked || parent !in rows
    requires forall chain :: ParentChain(rows, start, chain) ==> walked <= chain && ParentChain(rows, Some(parent), chain[|walked|..])
    ensures !ReachesRoot(rows, start)
  {
    forall chain | ParentChain(rows, start, chain) ensures false {
      var tail := chain[|walked|..];
      assert ParentChain(rows, Some(parent), tail);
      if parent in walked {
        var j :| 0 <= j < |walked| && walked[j] == parent;
        ChainSuffix(rows, start, chain, j);
        ChainUnique(rows, Some(parent), tail, chain[j..]);
      }
    }
  }

  /** The inner walk to the root; it fails exactly when the chain leaves the snapshot or loops. */
  method Ancestors(rows: Tasks, start: Option<Id>) returns (visited: set<Id>, ok: bool)
    ensures ok <==> ReachesRoot(rows, start)
    ensures ok ==> visited <= rows.Keys
    ensures ok && start.Some? ==> start.value in visited
    ensures ok ==> forall t: set<Id> :: UpClosed(rows, t) && (start.Some? ==> start.value in t) ==> visited <= t
  {
    var parent := start;
    visited := {};
    ghost var walked: seq<Id> := [];
    assert forall rest: seq<Id> :: walked + rest == rest;
    while parent.Some?
      invariant visited <= rows.Keys && forall n :: n in walked <==> n in visited
      invariant forall rest :: ParentChain(rows, parent, rest) ==> ParentChain(rows, start, walked + rest)
      invariant forall chain :: ParentChain(rows, start, chain) ==>
        walked <= chain && ParentChain(rows, parent, chain[|walked|..])
      invariant forall t: set<Id> :: UpClosed(rows, t) && (start.Some? ==> start.value in t) ==>
        visited <= t && (parent.Some? ==> parent.value in t)
      invariant start.Some? ==> start.value in visited || parent == start
      decreases rows.Keys - visited
    {
      if parent.value in visited || parent.value !in rows {
        WalkGoesNowhere(rows, start, walked, parent.value);
        return {}, false;
      }
      ghost var previous := walked;
      ghost var at := parent;
      visited := visited + {parent.value};
      walked := walked + [parent.value];
      parent := rows[parent.value].parent;
      forall rest | ParentChain(rows, parent, rest) ensures ParentChain(rows, start, walked + rest) {
        assert ([at.value] + rest)[1..] == rest;
        assert ParentChain(rows, at, [at.value] + rest);
        assert walked + rest == previous + ([at.value] + rest);
      }
      forall chain | ParentChain(rows, start, chain)
        ensures walked <= chain && ParentChain(rows, parent, chain[|walked|..])
      {
        var tail := chain[|previous|..];
        assert ParentChain(rows, at, tail);
        assert tail[1..] == chain[|walked|..];
      }
    }
    assert ParentChain(rows, parent, []);
    assert walked + [] == walked;
    ok := true;
  }

  /** Incomplete and selected nodes run again, and so does every retained node downstream of one. */
  method ExecutionNodes(tasks: seq<Task>, required: set<Id>, selected: Option<seq<Id>>) returns (execute: set<Id>)
    requires DistinctIds(tasks) && required <= ById(tasks).Keys
    requires selected.Some? ==> forall id :: id in selected.value ==> id in required
    ensures LeastDownstream(ById(tasks), required, RerunSeed(ById(tasks), required, selected), execute)
    ensures execute <= required
  {
    var rows := ById(tasks);
    var seed := IncompleteNodes(tasks, required);
    if selected.Some? {
      seed := seed + set id | id in selected.value;
    }
    assert seed == RerunSeed(rows, required, selected);
    var dependents := Dependents(tasks, required);
    execute := CloseOverDependents(dependents, seed, required);
    ClosureIsDownstream(rows, required, dependents, seed, execute);
  }

  method IncompleteNodes(tasks: seq<Task>, required: set<Id>) returns (ids: set<Id>)
    requires DistinctIds(tasks)
    ensures ids == set n | n in required && n in ById(tasks) && ById(tasks)[n].status != Completed
  {
    ids := set task | task in tasks && task.id in required && task.status != Completed :: task.id;
    IncompleteRows(tasks, required, ids);
  }

  /** Selecting rows by status and looking identifiers up give the same nodes. */
  lemma {:induction false} IncompleteRows(tasks: seq<Task>, required: set<Id>, incomplete: set<Id>)
    requires DistinctIds(tasks)
    requires incomplete == set task | task in tasks && task.id in required && task.status != Completed :: task.id
    ensures incomplete == set n | n in required && n in ById(tasks) && ById(tasks)[n].status != Completed
  {
    var rows := ById(tasks);
    forall task | task in tasks ensures task.id in rows && rows[task.id] == task {
      var i :| 0 <= i < |tasks| && tasks[i] == task;
      ByIdFinds(tasks, i);
    }
    forall n | n in required && n in rows && rows[n].status != Completed ensures n in incomplete {
      assert rows[n] in tasks && rows[n].id == n;
    }
  }

  ghost function RerunSeed(rows: Tasks, required: set<Id>, selected: Option<seq<Id>>): set<Id> {
    (set n | n in required && n in rows && rows[n].status != Completed) +
    (if selected.Some? then set id | id in selected.value else {})
  }
}
