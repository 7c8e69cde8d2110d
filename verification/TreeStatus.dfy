/** The overall status of a task tree. */
module TreeStatus {
  import opened Prelude
  import opened TaskForest

  /** The priority rule over a list of statuses. */
  function Overall(statuses: seq<Status>): Status {
    if AllCompleted(statuses) then Completed
    else if Failed in statuses then Failed
    else if InProgress in statuses then InProgress
    else if Cancelled in statuses then Cancelled
    else Pending
  }

  /** calculate_status: the rule applied level by level. */
  function CalculateStatus(t: Tree<Status>): Status {
    if t.children == [] then t.task else Overall([t.task] + EachStatus(t.children))
  }

  function EachStatus(trees: seq<Tree<Status>>): (statuses: seq<Status>)
    ensures |statuses| == |trees|
  {
    if trees == [] then [] else [CalculateStatus(trees[0])] + EachStatus(trees[1..])
  }

  predicate AllCompleted(statuses: seq<Status>) {
    forall s :: s in statuses ==> s == Completed
  }

  /** A summary stands for a list when every question the rule asks has the same answer. */
  ghost predicate StandsFor(summary: seq<Status>, statuses: seq<Status>) {
    && (AllCompleted(summary) <==> AllCompleted(statuses))
    && (Failed in summary <==> Failed in statuses)
    && (Failed !in statuses ==> (InProgress in summary <==> InProgress in statuses))
    && (Failed !in statuses && InProgress !in statuses ==> (Cancelled in summary <==> Cancelled in statuses))
  }

  lemma AllCompletedAppend(a: seq<Status>, b: seq<Status>)
    ensures AllCompleted(a + b) <==> AllCompleted(a) && AllCompleted(b)
  {
    if AllCompleted(a + b) {
      forall s | s in a ensures s == Completed {
        assert s in a + b;
      }
      forall s | s in b ensures s == Completed {
        assert s in a + b;
      }
    }
  }

  lemma StandsForAppend(a: seq<Status>, b: seq<Status>, c: seq<Status>, d: seq<Status>)
    requires StandsFor(a, b) && StandsFor(c, d)
    ensures StandsFor(a + c, b + d)
  {
    AllCompletedAppend(a, c);
    AllCompletedAppend(b, d);
  }

  /** The rule's answer stands for the list it was asked about, and lists one stands for get one answer. */
  lemma OverallStandsFor(summary: seq<Status>, statuses: seq<Status>)
    requires StandsFor(summary, statuses)
    ensures StandsFor([Overall(summary)], statuses) && Overall(summary) == Overall(statuses)
  {
    assert AllCompleted([Overall(summary)]) <==> Overall(summary) == Completed by {
      assert Overall(summary) in [Overall(summary)];
    }
  }

  lemma {:induction false} StatusStandsForTree(t: Tree<Status>)
    ensures StandsFor([CalculateStatus(t)], ToList(t)) && CalculateStatus(t) == Overall(ToList(t))
    decreases t, 0
  {
    EachStandsFor(t.children);
    StandsForAppend([t.task], [t.task], EachStatus(t.children), ToLists(t.children));
    if t.children == [] {
      assert ToList(t) == [t.task] && [t.task] + EachStatus(t.children) == [t.task];
      assert t.task in [t.task];
      assert Overall([t.task]) == t.task;
    }
    OverallStandsFor([t.task] + EachStatus(t.children), ToList(t));
  }

  lemma {:induction false} EachStandsFor(trees: seq<Tree<Status>>)
    ensures StandsFor(EachStatus(trees), ToLists(trees))
    decreases trees
  {
    if trees != [] {
      StatusStandsForTree(trees[0]);
      EachStandsFor(trees[1..]);
      StandsForAppend([CalculateStatus(trees[0])], ToList(trees[0]), EachStatus(trees[1..]), ToLists(trees[1..]));
    }
  }

  /** However deep the tree, its status is the rule applied once to all its tasks. */
  lemma {:induction false} StatusIsFlat(t: Tree<Status>)
    ensures CalculateStatus(t) == Overall(ToList(t))
    ensures CalculateStatus(t) == Completed <==> AllCompleted(ToList(t))
    ensures CalculateStatus(t) == Failed <==> Failed in ToList(t)
    ensures CalculateStatus(t) == InProgress <==> InProgress in ToList(t) && Failed !in ToList(t)
    ensures CalculateStatus(t) == Cancelled <==> Cancelled in ToList(t) && Failed !in ToList(t) && InProgress !in ToList(t)
    ensures CalculateStatus(t) == Pending <==> Pending in ToList(t) && forall s :: s in ToList(t) ==> s == Pending || s == Completed
  {
    StatusStandsForTree(t);
  }
}
