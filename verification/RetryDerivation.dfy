/** The whole derivation of a retry run, from the restored source rows to the cloned tree. */
module RetryDerivation {
  import opened Prelude
  import opened DependencyGraph
  import opened RunRetry
  import opened RetryRecomputation
  import opened RetryClone

  datatype DeriveError =
    | CircularDependencies
    | BadSelection(reason: SelectError)
    | ReconciliationRequired
    | MissingDependency(id: Id)

  /** What is known about the outcome of the source run. */
  datatype Evidence = Evidence(
    reconciliationRequired: bool,
    unknownAttempts: set<Id>,
    unknownDeliveries: set<Id>,
    replaySafe: bool,
    evidenceRef: Option<string>)

  ghost predicate Uncertain(rows: Tasks, required: set<Id>, evidence: Evidence) {
    || evidence.unknownAttempts * required != {}
    || evidence.reconciliationRequired
    || exists n :: n in required && n in rows && (rows[n].status == InProgress || n in evidence.unknownDeliveries)
  }

  predicate Authorized(evidence: Evidence) {
    evidence.replaySafe && evidence.evidenceRef.Some? && evidence.evidenceRef.value != ""
  }

  /** An unknown outcome is replayed only with authorization and evidence. */
  method ValidateReplay(tasks: seq<Task>, required: set<Id>, evidence: Evidence) returns (ok: bool)
    requires DistinctIds(tasks)
    ensures ok <==> (Uncertain(ById(tasks), required, evidence) ==> Authorized(evidence))
  {
    var uncertain := evidence.unknownAttempts * required != {} || evidence.reconciliationRequired;
    for i := 0 to |tasks|
      invariant uncertain <==>
        (evidence.unknownAttempts * required != {} || evidence.reconciliationRequired ||
         exists k :: 0 <= k < i && tasks[k].id in required &&
           (tasks[k].status == InProgress || tasks[k].id in evidence.unknownDeliveries))
    {
      if tasks[i].id in required && (tasks[i].status == InProgress || tasks[i].id in evidence.unknownDeliveries) {
        uncertain := true;
      }
    }
    ok := !uncertain || Authorized(evidence);
  }

  datatype Derived = Derived(root: Id, clones: seq<Clone>, execute: set<Id>, reused: set<Id>, mapping: map<Id, Id>)

  /** No sound choice that reruns the incomplete and selected nodes leaves out a member of execute. */
  ghost predicate LeastSoundRerun(rows: Tasks, required: set<Id>, selected: Option<seq<Id>>, execute: set<Id>) {
    forall other: set<Id> ::
      RerunSeed(rows, required, selected) <= other <= required && SoundRerun(rows, required, other) ==> execute <= other
  }

  /**
   * The retained nodes split into rerun and reused ones; reused results are completed and depend only on
   * reused results; every node is consistent afterwards; and no sound retry reruns less.
   */
  ghost predicate SoundReuse(rows: Tasks, required: set<Id>, selected: Option<seq<Id>>, execute: set<Id>) {
    && Retainable(rows, required) && execute <= required
    && (forall n :: n in required - execute ==>
          rows[n].status == Completed && DependencyIds(rows[n]) <= required - execute)
    && SoundRerun(rows, required, execute)
    && LeastSoundRerun(rows, required, selected, execute)
  }

  /** The new tree is the retained part of the old one under new names, with the reused results. */
  ghost predicate FaithfulClone(rows: Tasks, required: set<Id>, execute: set<Id>, cloned: Tasks, mapping: map<Id, Id>,
                                inverse: map<Id, Id>) {
    && Isomorphic(rows, required, cloned, mapping, inverse)
    && (forall n :: n in required ==> (cloned[mapping[n]].status == Completed <==> n !in execute))
    && (forall n :: n in required - execute ==> cloned[mapping[n]].result == rows[n].result)
  }

  ghost predicate WellFormedTree(cloned: Tasks, root: Id) {
    && Retainable(cloned, cloned.Keys) && SingleRoot(cloned, root) && !HasCycle(EdgeMap(cloned))
  }

  /** Everything a caller may rely on about a derived run. */
  ghost predicate GoodDerivation(tasks: seq<Task>, selected: Option<seq<Id>>, required: set<Id>, derived: Derived,
                                 inverse: map<Id, Id>, root: Id) {
    var rows := ById(tasks);
    var cloned := ById(RowsOf(derived.clones));
    && derived.reused == required - derived.execute && FreshIdentifiers(derived.mapping, required, rows)
    && SoundReuse(rows, required, selected, derived.execute)
    && DistinctIds(RowsOf(derived.clones))
    && FaithfulClone(rows, required, derived.execute, cloned, derived.mapping, inverse)
    && root in derived.mapping && derived.root == derived.mapping[root]
    && WellFormedTree(cloned, derived.root)
  }

  // ----- When a retry is derived ----------------------------------------------------------------

  ghost function Asked(rows: Tasks, selected: Option<seq<Id>>): set<Id> {
    if selected.None? then rows.Keys else set id | id in selected.value
  }

  /** There is something to retry, and it is in the run. */
  ghost predicate InRun(rows: Tasks, selected: Option<seq<Id>>) {
    Asked(rows, selected) != {} && Asked(rows, selected) <= rows.Keys
  }

  /** What was asked for, all that depends on it, and all that those need: the nodes of the new run. */
  ghost predicate Keeps(rows: Tasks, selected: Option<seq<Id>>, s: set<Id>) {
    exists affected ::
      LeastDownstream(rows, rows.Keys, Asked(rows, selected), affected) && LeastRetained(rows, affected, s)
  }

  ghost predicate Selectable(rows: Tasks, selected: Option<seq<Id>>, s: set<Id>) {
    InRun(rows, selected) && Keeps(rows, selected, s) && Retainable(rows, s)
  }

  ghost predicate Permitted(rows: Tasks, s: set<Id>, evidence: Evidence) {
    Uncertain(rows, s, evidence) ==> Authorized(evidence)
  }

  /** A retry is derived exactly from an acyclic run, for nodes of it that can be kept, when it may be replayed. */
  ghost predicate Derivable(rows: Tasks, selected: Option<seq<Id>>, evidence: Evidence) {
    !HasCycle(EdgeMap(rows)) && exists s :: Selectable(rows, selected, s) && Permitted(rows, s, evidence)
  }

  /** The one error each refusal has; no two of these conditions hold together. */
  ghost predicate Explains(rows: Tasks, selected: Option<seq<Id>>, evidence: Evidence, error: DeriveError) {
    match error
    case CircularDependencies => HasCycle(EdgeMap(rows))
    case BadSelection(reason) =>
      && !HasCycle(EdgeMap(rows)) && (forall s :: !Selectable(rows, selected, s))
      && (reason.NotInRun? <==> !InRun(rows, selected))
    case ReconciliationRequired =>
      !HasCycle(EdgeMap(rows)) && exists s :: Selectable(rows, selected, s) && !Permitted(rows, s, evidence)
    case MissingDependency(_) => false
  }

  /** There is one set of nodes to keep at most. */
  lemma KeptIsUnique(rows: Tasks, selected: Option<seq<Id>>, s: set<Id>, t: set<Id>)
    requires Keeps(rows, selected, s) && Keeps(rows, selected, t)
    ensures s == t
  {
    var asked := Asked(rows, selected);
    var a :| LeastDownstream(rows, rows.Keys, asked, a) && LeastRetained(rows, a, s);
    var b :| LeastDownstream(rows, rows.Keys, asked, b) && LeastRetained(rows, b, t);
    assert a == b;
  }

  lemma AffectedIsUnique(rows: Tasks, selected: Option<seq<Id>>, affected: set<Id>, s: set<Id>)
    requires LeastDownstream(rows, rows.Keys, Asked(rows, selected), affected) && Keeps(rows, selected, s)
    ensures LeastRetained(rows, affected, s)
  {
    var a :| LeastDownstream(rows, rows.Keys, Asked(rows, selected), a) && LeastRetained(rows, a, s);
    assert a == affected;
  }

  /** With the nodes to keep known, it is the evidence that decides. */
  lemma EvidenceDecides(rows: Tasks, selected: Option<seq<Id>>, evidence: Evidence, s: set<Id>)
    requires Selectable(rows, selected, s) && !HasCycle(EdgeMap(rows))
    ensures Derivable(rows, selected, evidence) <==> Permitted(rows, s, evidence)
    ensures Explains(rows, selected, evidence, ReconciliationRequired) <==> !Permitted(rows, s, evidence)
  {
    forall t | Selectable(rows, selected, t) ensures t == s {
      KeptIsUnique(rows, selected, s, t);
    }
  }

  lemma NothingToKeep(rows: Tasks, selected: Option<seq<Id>>, affected: set<Id>)
    requires InRun(rows, selected) ==>
      && LeastDownstream(rows, rows.Keys, Asked(rows, selected), affected)
      && forall s: set<Id> :: affected <= s ==> !Retainable(rows, s)
    ensures forall s :: !Selectable(rows, selected, s)
  {
    forall s ensures !Selectable(rows, selected, s) {
      if InRun(rows, selected) && Keeps(rows, selected, s) {
        AffectedIsUnique(rows, selected, affected, s);
      }
    }
  }

  datatype Choice = Choice(required: set<Id>, execute: set<Id>)

  /** Which nodes the retry keeps and which of them run again. */
  method ChooseNodes(tasks: seq<Task>, selected: Option<seq<Id>>, evidence: Evidence)
      returns (r: Result<Choice, DeriveError>, ghost required: set<Id>, ghost order: seq<Id>)
    requires DistinctIds(tasks)
    ensures (r.Failure? && r.error.CircularDependencies?) <==> HasCycle(EdgeMap(ById(tasks)))
    ensures r.Failure? && r.error.ReconciliationRequired? ==>
      Uncertain(ById(tasks), required, evidence) && !Authorized(evidence)
    ensures r.Success? ==> r.value.required == required && required != {} && Retainable(ById(tasks), required)
    ensures r.Success? ==> SoundReuse(ById(tasks), required, selected, r.value.execute)
    ensures r.Success? ==> IsDependencyOrder(EdgeMap(ById(tasks)), ById(tasks).Keys, order)
    ensures r.Success? && Uncertain(ById(tasks), required, evidence) ==> Authorized(evidence)
    ensures r.Success? && selected.Some? ==> forall id :: id in selected.value ==> id in r.value.execute
    ensures r.Success? <==> Derivable(ById(tasks), selected, evidence)
    ensures r.Failure? ==> Explains(ById(tasks), selected, evidence, r.error)
    ensures r.Success? ==> Keeps(ById(tasks), selected, required)
  {
    var rows := ById(tasks);
    required := {};
    var acyclic, sorted := DetectCircularDependencies(EdgeMap(rows));
    order := sorted;
    if !acyclic {
      return Failure(CircularDependencies), required, order;
    }
    var selection, affected := SelectNodes(tasks, selected);
    if selection.Failure? {
      NothingToKeep(rows, selected, affected);
      return Failure(BadSelection(selection.error)), required, order;
    }
    required := selection.value;
    assert Keeps(rows, selected, required);
    EvidenceDecides(rows, selected, evidence, required);
    var allowed := ValidateReplay(tasks, selection.value, evidence);
    if !allowed {
      return Failure(ReconciliationRequired), required, order;
    }
    var execute := ExecutionNodes(tasks, selection.value, selected);
    ReuseIsSound(rows, required, selected, execute, order);
    r := Success(Choice(selection.value, execute));
  }

  method DeriveRun(tasks: seq<Task>, selected: Option<seq<Id>>, evidence: Evidence, supply: map<Id, Id>, ghost root: Id)
      returns (r: Result<Derived, DeriveError>, ghost required: set<Id>, ghost inverse: map<Id, Id>)
    requires DistinctIds(tasks) && SingleRoot(ById(tasks), root)
    requires FreshIdentifiers(supply, ById(tasks).Keys, ById(tasks))
    ensures (r.Failure? && r.error.CircularDependencies?) <==> HasCycle(EdgeMap(ById(tasks)))
    ensures r.Failure? && r.error.ReconciliationRequired? ==>
      Uncertain(ById(tasks), required, evidence) && !Authorized(evidence)
    ensures r.Success? ==> GoodDerivation(tasks, selected, required, r.value, inverse, root)
    ensures r.Success? && Uncertain(ById(tasks), required, evidence) ==> Authorized(evidence)
    ensures r.Success? && selected.Some? ==> forall id :: id in selected.value ==> id in r.value.execute
    ensures r.Success? <==> Derivable(ById(tasks), selected, evidence)
    ensures r.Failure? ==> Explains(ById(tasks), selected, evidence, r.error)
    ensures r.Success? ==> Keeps(ById(tasks), selected, required)
  {
    var choice, kept, order := ChooseNodes(tasks, selected, evidence);
    required, inverse := kept, map[];
    if choice.Failure? {
      return Failure(choice.error), required, inverse;
    }
    var derived, back := CloneChosen(tasks, selected, choice.value, supply, root, order);
    inverse := back;
    r := Success(derived);
  }

  /** New names for the retained nodes, and their clones; cloning a chosen set cannot fail. */
  method CloneChosen(tasks: seq<Task>, ghost selected: Option<seq<Id>>, choice: Choice, supply: map<Id, Id>,
                     ghost root: Id, ghost order: seq<Id>) returns (derived: Derived, ghost inverse: map<Id, Id>)
    requires DistinctIds(tasks) && SingleRoot(ById(tasks), root) && choice.required != {}
    requires FreshIdentifiers(supply, ById(tasks).Keys, ById(tasks))
    requires SoundReuse(ById(tasks), choice.required, selected, choice.execute)
    requires IsDependencyOrder(EdgeMap(ById(tasks)), ById(tasks).Keys, order)
    ensures GoodDerivation(tasks, selected, choice.required, derived, inverse, root)
    ensures derived.execute == choice.execute
  {
    RootRetained(ById(tasks), choice.required, root);
    var identifiers := NamesFor(supply, choice.required, ById(tasks));
    var result, picked, plan := CloneNodes(tasks, choice.required, choice.execute, identifiers, root);
    var (newRoot, clones) := result.value;
    derived := Derived(newRoot, clones, choice.execute, choice.required - choice.execute, identifiers);
    inverse := DerivationIsGood(tasks, selected, derived, picked, plan, order);
  }

  function NamesFor(supply: map<Id, Id>, required: set<Id>, ghost rows: Tasks): (identifiers: map<Id, Id>)
    requires FreshIdentifiers(supply, rows.Keys, rows) && required <= rows.Keys
    ensures FreshIdentifiers(identifiers, required, rows)
  {
    map n | n in required :: supply[n]
  }

  /** Following parents from any retained node ends at the root, so the root is retained. */
  lemma RootRetained(rows: Tasks, required: set<Id>, root: Id)
    requires Retainable(rows, required) && SingleRoot(rows, root) && required != {}
    ensures root in required
  {
    var n :| n in required;
    var chain :| ParentChain(rows, rows[n].parent, chain);
    ChainEndsAtRoot(rows, required, root, n, chain);
  }

  lemma {:induction false} ChainEndsAtRoot(rows: Tasks, required: set<Id>, root: Id, n: Id, chain: seq<Id>)
    requires Retainable(rows, required) && SingleRoot(rows, root) && n in required
    requires ParentChain(rows, rows[n].parent, chain)
    ensures root in required
    decreases |chain|
  {
    if rows[n].parent.Some? {
      ChainEndsAtRoot(rows, required, root, rows[n].parent.value, chain[1..]);
    }
  }

  lemma ReuseIsSound(rows: Tasks, required: set<Id>, selected: Option<seq<Id>>, execute: set<Id>, order: seq<Id>)
    requires Retainable(rows, required)
    requires selected.Some? ==> forall id :: id in selected.value ==> id in required
    requires LeastDownstream(rows, required, RerunSeed(rows, required, selected), execute)
    requires IsDependencyOrder(EdgeMap(rows), rows.Keys, order)
    ensures SoundReuse(rows, required, selected, execute)
  {
    assert DownClosed(rows, required, required);
    ExecutionSetIsLeastSound(rows, required, selected, execute, order, required);
    forall other: set<Id> | RerunSeed(rows, required, selected) <= other <= required && SoundRerun(rows, required, other)
      ensures execute <= other
    {
      ExecutionSetIsLeastSound(rows, required, selected, execute, order, other);
    }
  }

  lemma CloneIsFaithful(tasks: seq<Task>, picked: seq<nat>, clones: seq<Clone>, plan: Plan) returns (inverse: map<Id, Id>)
    requires WellPlanned(tasks, plan) && ClonesOf(tasks, picked, clones, plan)
    requires forall m :: m in plan.required - plan.execute ==> ById(tasks)[m].status == Completed
    ensures FaithfulClone(ById(tasks), plan.required, plan.execute, ById(RowsOf(clones)), plan.identifiers, inverse)
  {
    inverse := ClonesAreIsomorphic(tasks, picked, clones, plan);
    forall n | n in plan.required
      ensures ById(RowsOf(clones))[plan.identifiers[n]].status == Completed <==> n !in plan.execute
      ensures n !in plan.execute ==> ById(RowsOf(clones))[plan.identifiers[n]].result == ById(tasks)[n].result
    {
      CloneIsomorphism(tasks, picked, clones, plan, n);
    }
  }

  lemma CloneIsWellFormed(rows: Tasks, required: set<Id>, cloned: Tasks, mapping: map<Id, Id>, inverse: map<Id, Id>,
                          root: Id, order: seq<Id>)
    requires Isomorphic(rows, required, cloned, mapping, inverse)
    requires Retainable(rows, required) && SingleRoot(rows, root) && root in required
    requires IsDependencyOrder(EdgeMap(rows), rows.Keys, order)
    ensures WellFormedTree(cloned, mapping[root])
  {
    CloneIsTree(rows, required, cloned, mapping, inverse, root);
    RestrictKeepsOrder(EdgeMap(rows), order, required);
    CloneHasNoCycle(rows, required, cloned, mapping, inverse, Restrict(order, required));
  }

  lemma DerivationIsGood(tasks: seq<Task>, selected: Option<seq<Id>>, derived: Derived,
                         picked: seq<nat>, plan: Plan, order: seq<Id>) returns (inverse: map<Id, Id>)
    requires plan.execute == derived.execute && plan.identifiers == derived.mapping
    requires WellPlanned(tasks, plan) && ClonesOf(tasks, picked, derived.clones, plan)
    requires derived.root == plan.identifiers[plan.root] && derived.reused == plan.required - derived.execute
    requires SoundReuse(ById(tasks), plan.required, selected, derived.execute)
    requires IsDependencyOrder(EdgeMap(ById(tasks)), ById(tasks).Keys, order)
    ensures GoodDerivation(tasks, selected, plan.required, derived, inverse, plan.root)
  {
    inverse := CloneIsFaithful(tasks, picked, derived.clones, plan);
    ClonesHaveDistinctIds(tasks, picked, derived.clones, plan);
    CloneIsWellFormed(ById(tasks), plan.required, ById(RowsOf(derived.clones)), plan.identifiers, inverse, plan.root, order);
  }
}
