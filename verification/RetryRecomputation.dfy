/** A retry is incremental recomputation: reused results stay consistent with their inputs. */
module RetryRecomputation {
  import opened Prelude
  import opened DependencyGraph
  import opened RunRetry

  /**
   * What executors may produce: (task, dependency results, result) triples. Executors are arbitrary and
   * may answer differently for the same inputs.
   */
  type Executors = iset<(Id, map<Id, string>, string)>

  type Values = map<Id, string>

  ghost function Inputs(rows: Tasks, values: Values, n: Id): Values
    requires n in rows
  {
    map d | d in DependencyIds(rows[n]) && d in values :: values[d]
  }

  /** The node's result is one its executor may produce from its dependencies' present results. */
  ghost predicate ConsistentAt(rows: Tasks, executors: Executors, values: Values, n: Id) {
    n in rows && n in values && (n, Inputs(rows, values, n), values[n]) in executors
  }

  /** Results after the listed nodes have run, each replacing its previous result. */
  ghost function Executed(values: Values, order: seq<Id>, outcome: Values): (after: Values)
    requires forall n :: n in order ==> n in outcome
    ensures after.Keys == values.Keys + (set n | n in order)
    ensures forall n :: n in values && n !in order ==> after[n] == values[n]
    ensures forall n :: n in order ==> after[n] == outcome[n]
  {
    if order == [] then values
    else
      var last := |order| - 1;
      assert order == order[..last] + [order[last]];
      Executed(values, order[..last], outcome)[order[last] := outcome[order[last]]]
  }

  /** Each node in turn ran on the results present at that moment. */
  ghost predicate LegalExecution(rows: Tasks, executors: Executors, values: Values, order: seq<Id>, outcome: Values) {
    && (forall n :: n in order ==> n in outcome && n in rows)
    && (forall i :: 0 <= i < |order| ==>
          (order[i], Inputs(rows, Executed(values, order[..i], outcome), order[i]), outcome[order[i]]) in executors)
  }

  function EdgeMap(rows: Tasks): Graph {
    map n | n in rows :: set d | d in DependencyIds(rows[n]) && d in rows
  }

  ghost predicate ReusableConsistent(rows: Tasks, required: set<Id>, executors: Executors, values: Values) {
    && required <= values.Keys
    && (forall n :: n in required && n in rows && rows[n].status == Completed
          ==> ConsistentAt(rows, executors, values, n))
  }

  /**
   * Every node kept by the retry is, or was just made, consistent with its dependencies, whatever the
   * executors do, for every source run whose completed results were consistent.
   */
  ghost predicate SoundRerun(rows: Tasks, required: set<Id>, rerun: set<Id>) {
    forall executors: Executors, values: Values, order: seq<Id>, outcome: Values ::
      && ReusableConsistent(rows, required, executors, values)
      && IsDependencyOrder(EdgeMap(rows), rerun, order)
      && LegalExecution(rows, executors, values, order, outcome)
      ==> forall n :: n in required ==> ConsistentAt(rows, executors, Executed(values, order, outcome), n)
  }

  /** By the time a node runs, all of its dependencies that run have run. */
  lemma {:induction false} RerunNodeConsistent(
      rows: Tasks, required: set<Id>, rerun: set<Id>, executors: Executors, values: Values,
      order: seq<Id>, outcome: Values, i: nat)
    requires Retainable(rows, required) && rerun <= required <= values.Keys
    requires IsDependencyOrder(EdgeMap(rows), rerun, order) && i < |order|
    requires LegalExecution(rows, executors, values, order, outcome)
    ensures ConsistentAt(rows, executors, Executed(values, order, outcome), order[i])
  {
    var n := order[i];
    var after := Executed(values, order, outcome);
    var before := Executed(values, order[..i], outcome);
    forall d | d in DependencyIds(rows[n]) ensures d in before && d in after && before[d] == after[d] {
      assert n in rerun && d in required;
      if d in rerun {
        assert order[i] in EdgeMap(rows) && d in EdgeMap(rows)[order[i]];
        assert d in order[..i];
      } else {
        assert d !in order && d !in order[..i];
      }
    }
    assert Inputs(rows, after, n) == Inputs(rows, before, n);
  }

  /** A node that is kept and does not run again has the inputs it had. */
  lemma {:induction false} ReusedNodeConsistent(
      rows: Tasks, required: set<Id>, rerun: set<Id>, executors: Executors, values: Values,
      order: seq<Id>, outcome: Values, n: Id)
    requires Retainable(rows, required) && RerunSeed(rows, required, None) <= rerun && DownClosed(rows, required, rerun)
    requires ReusableConsistent(rows, required, executors, values) && n in required && n !in rerun
    requires (forall d :: d in order <==> d in rerun) && forall d :: d in order ==> d in outcome
    ensures ConsistentAt(rows, executors, Executed(values, order, outcome), n)
  {
    var after := Executed(values, order, outcome);
    assert n in rows && rows[n].status == Completed;
    forall d | d in DependencyIds(rows[n]) ensures d !in order && (d in values ==> after[d] == values[d]) {
    }
    assert Inputs(rows, after, n) == Inputs(rows, values, n);
  }

  /** Rerunning a set closed under dependents recomputes exactly what can have become stale. */
  lemma {:induction false} DownClosedIsSound(rows: Tasks, required: set<Id>, rerun: set<Id>)
    requires Retainable(rows, required)
    requires RerunSeed(rows, required, None) <= rerun <= required && DownClosed(rows, required, rerun)
    ensures SoundRerun(rows, required, rerun)
  {
    forall executors: Executors, values: Values, order: seq<Id>, outcome: Values, n |
      && ReusableConsistent(rows, required, executors, values)
      && IsDependencyOrder(EdgeMap(rows), rerun, order)
      && LegalExecution(rows, executors, values, order, outcome)
      && n in required
      ensures ConsistentAt(rows, executors, Executed(values, order, outcome), n)
    {
      if n in rerun {
        var i :| 0 <= i < |order| && order[i] == n;
        RerunNodeConsistent(rows, required, rerun, executors, values, order, outcome, i);
      } else {
        ReusedNodeConsistent(rows, required, rerun, executors, values, order, outcome, n);
      }
    }
  }

  /** Every executor answers anything, except that n insists on the old result of d. */
  ghost function ReadsOld(n: Id, d: Id): Executors {
    iset e: (Id, map<Id, string>, string) | e.0 != n || (d in e.1 && e.1[d] == "old")
  }

  lemma StaleExecutionIsLegal(rows: Tasks, required: set<Id>, rerun: set<Id>, order: seq<Id>, n: Id, d: Id,
                              values: Values, outcome: Values)
    requires required <= rows.Keys && rerun <= required && required <= values.Keys && rerun <= outcome.Keys
    requires forall k :: k in order <==> k in rerun
    requires n in required && n !in rerun && d in DependencyIds(rows[n]) && d in values && values[d] == "old"
    ensures LegalExecution(rows, ReadsOld(n, d), values, order, outcome)
    ensures ReusableConsistent(rows, required, ReadsOld(n, d), values)
  {
  }

  lemma {:induction false} StaleAfterwards(rows: Tasks, order: seq<Id>, n: Id, d: Id, values: Values, outcome: Values)
    requires n in rows && d in DependencyIds(rows[n]) && d in order
    requires forall k :: k in order ==> k in outcome && outcome[k] == "new"
    ensures !ConsistentAt(rows, ReadsOld(n, d), Executed(values, order, outcome), n)
  {
  }

  /** A node left out although a dependency of it runs again can be left inconsistent. */
  lemma {:induction false} StaleNode(
      rows: Tasks, required: set<Id>, rerun: set<Id>, order: seq<Id>, n: Id, d: Id)
    requires Retainable(rows, required) && rerun <= required
    requires IsDependencyOrder(EdgeMap(rows), rerun, order)
    requires n in required && n !in rerun && d in DependencyIds(rows[n]) && d in rerun
    ensures !SoundRerun(rows, required, rerun)
  {
    var values: Values := map k | k in required :: "old";
    var outcome: Values := map k | k in rerun :: "new";
    StaleExecutionIsLegal(rows, required, rerun, order, n, d, values, outcome);
    StaleAfterwards(rows, order, n, d, values, outcome);
  }

  /**
   * The execute set computed for a retry is sound, reuses only completed nodes whose dependencies are
   * all reused, and is contained in every other sound choice.
   */
  lemma ExecutionSetIsLeastSound(
      rows: Tasks, required: set<Id>, selected: Option<seq<Id>>, execute: set<Id>, order: seq<Id>, other: set<Id>)
    requires Retainable(rows, required)
    requires selected.Some? ==> forall id :: id in selected.value ==> id in required
    requires LeastDownstream(rows, required, RerunSeed(rows, required, selected), execute)
    requires IsDependencyOrder(EdgeMap(rows), rows.Keys, order)
    requires RerunSeed(rows, required, selected) <= other <= required
    ensures execute <= required && SoundRerun(rows, required, execute)
    ensures forall n :: n in required - execute ==>
      rows[n].status == Completed && DependencyIds(rows[n]) <= required - execute
    ensures SoundRerun(rows, required, other) ==> execute <= other
  {
    assert DownClosed(rows, required, required);
    assert execute <= required;
    DownClosedIsSound(rows, required, execute);
    if SoundRerun(rows, required, other) {
      var graph := EdgeMap(rows);
      var some := Restrict(order, other);
      RestrictKeepsOrder(graph, order, other);
      assert IsDependencyOrder(graph, other, some);
      assert DownClosed(rows, required, other) by {
        forall n, d | n in required && n in rows && d in DependencyIds(rows[n]) && d in other ensures n in other {
          if n !in other {
            StaleNode(rows, required, other, some, n, d);
          }
        }
      }
    }
  }
}
