/** Resolving a task array's references, and stamping every task with the identifier of its tree. */
module TreeIds {
  import opened Prelude
  import opened TaskForest

  // ----- Names and identifiers --------------------------------------------------------------

  /** A task dictionary as submitted; a reference may be an identifier or a name. */
  datatype Draft = Draft(name: Id, id: Option<Id>, parent: Option<Id>)

  datatype DraftError = MissingName | DuplicateName | DuplicateId | UnknownParent

  predicate Given(id: Option<Id>) {
    id.Some? && id.value != BLANK
  }

  /** The identifier a draft ends up with: its own, or a fresh one. */
  function IdOf(d: Draft, generated: Id): Id {
    if Given(d.id) then d.id.value else generated
  }

  ghost predicate SomeId(drafts: seq<Draft>, generated: seq<Id>, n: nat, id: Id)
    requires n <= |drafts| == |generated|
  {
    exists i :: 0 <= i < n && IdOf(drafts[i], generated[i]) == id
  }

  ghost predicate SomeName(drafts: seq<Draft>, n: nat, name: Id)
    requires n <= |drafts|
  {
    exists i :: 0 <= i < n && drafts[i].name == name
  }

  /** uuid4: generated identifiers repeat nothing. */
  ghost predicate Fresh(drafts: seq<Draft>, generated: seq<Id>) {
    && |generated| == |drafts| && BLANK !in generated
    && (forall i, j {:trigger Differ(generated, i, j)} :: 0 <= i < j < |generated| ==> Differ(generated, i, j))
    && (forall i :: 0 <= i < |drafts| && drafts[i].id.Some? ==> drafts[i].id.value !in generated)
  }

  predicate Differ(ids: seq<Id>, i: int, j: int)
    requires 0 <= i < j < |ids|
  {
    ids[i] != ids[j]
  }

  /** Two drafts with one name, or with one given identifier. */
  predicate Clash(drafts: seq<Draft>, i: int, j: int)
    requires 0 <= i < j < |drafts|
  {
    drafts[i].name == drafts[j].name || (Given(drafts[i].id) && drafts[i].id == drafts[j].id)
  }

  /** The first n names are present, and no two of those drafts clash. */
  ghost predicate WellNamed(drafts: seq<Draft>, n: nat)
    requires n <= |drafts|
  {
    && (forall i :: 0 <= i < n ==> drafts[i].name != BLANK)
    && (forall i, j {:trigger Clash(drafts, i, j)} :: 0 <= i < j < n ==> !Clash(drafts, i, j))
  }

  /** What a parent reference means: an identifier first, then a name; blank and absent stay as they are. */
  ghost predicate ResolvesTo(drafts: seq<Draft>, generated: seq<Id>, reference: Option<Id>, parent: Option<Id>)
    requires |generated| == |drafts|
  {
    if !Given(reference) then parent == reference
    else if SomeId(drafts, generated, |drafts|, reference.value) then parent == reference
    else exists k :: 0 <= k < |drafts| && drafts[k].name == reference.value && parent == Some(IdOf(drafts[k], generated[k]))
  }

  ghost predicate ParentNamed(drafts: seq<Draft>, generated: seq<Id>, i: nat)
    requires i < |drafts| == |generated|
  {
    Given(drafts[i].parent) ==>
      SomeId(drafts, generated, |drafts|, drafts[i].parent.value) || SomeName(drafts, |drafts|, drafts[i].parent.value)
  }

  ghost predicate ParentsNamed(drafts: seq<Draft>, generated: seq<Id>)
    requires |generated| == |drafts|
  {
    forall i :: 0 <= i < |drafts| ==> ParentNamed(drafts, generated, i)
  }

  /** The tables of the first pass, after n drafts. */
  ghost predicate Collected(drafts: seq<Draft>, generated: seq<Id>, n: nat, byName: map<Id, Id>, ids: set<Id>)
    requires n <= |drafts| == |generated|
  {
    && (forall name :: name in byName ==> SomeName(drafts, n, name))
    && (forall k :: 0 <= k < n ==> drafts[k].name in byName && byName[drafts[k].name] == IdOf(drafts[k], generated[k]))
    && (forall id :: id in ids ==> SomeId(drafts, generated, n, id))
    && (forall k :: 0 <= k < n ==> IdOf(drafts[k], generated[k]) in ids)
  }

  /** What the checks of one draft mean for the drafts before it. */
  lemma ClashesAreSeen(drafts: seq<Draft>, generated: seq<Id>, n: nat, byName: map<Id, Id>, ids: set<Id>)
    requires Fresh(drafts, generated) && n < |drafts| && Collected(drafts, generated, n, byName, ids) && WellNamed(drafts, n)
    ensures var d := drafts[n];
      WellNamed(drafts, n + 1) <==> d.name != BLANK && d.name !in byName && !(Given(d.id) && d.id.value in ids)
  {
    var d := drafts[n];
    if d.name in byName {
      var k :| 0 <= k < n && drafts[k].name == d.name;
      assert Clash(drafts, k, n);
    } else if Given(d.id) && d.id.value in ids {
      var k :| 0 <= k < n && IdOf(drafts[k], generated[k]) == d.id.value;
      assert generated[k] in generated;
      assert Clash(drafts, k, n);
    } else {
      forall k | 0 <= k < n ensures !Clash(drafts, k, n) {
        assert IdOf(drafts[k], generated[k]) in ids;
      }
    }
  }

  /** The first pass: identifiers for everyone, names and identifiers distinct. */
  method AssignIds(drafts: seq<Draft>, generated: seq<Id>) returns (r: Result<map<Id, Id>, DraftError>, ids: set<Id>)
    requires Fresh(drafts, generated)
    ensures r.Success? <==> WellNamed(drafts, |drafts|)
    ensures r.Success? ==> Collected(drafts, generated, |drafts|, r.value, ids)
  {
    var byName: map<Id, Id> := map[];
    ids := {};
    for i := 0 to |drafts|
      invariant WellNamed(drafts, i) && Collected(drafts, generated, i, byName, ids)
    {
      var d := drafts[i];
      ClashesAreSeen(drafts, generated, i, byName, ids);
      if d.name == BLANK {
        return Failure(MissingName), ids;
      }
      if d.name in byName {
        return Failure(DuplicateName), ids;
      }
      if Given(d.id) && d.id.value in ids {
        return Failure(DuplicateId), ids;
      }
      byName := byName[d.name := IdOf(d, generated[i])];
      ids := ids + {IdOf(d, generated[i])};
    }
    r := Success(byName);
  }

  /** The row of a draft, once the tables are complete. */
  function RowFor(d: Draft, generated: Id, byName: map<Id, Id>, ids: set<Id>): Row {
    Row(IdOf(d, generated),
      if Given(d.parent) && d.parent.value !in ids && d.parent.value in byName then Some(byName[d.parent.value]) else d.parent)
  }

  ghost predicate RowsFor(drafts: seq<Draft>, generated: seq<Id>, byName: map<Id, Id>, ids: set<Id>, n: nat, rows: seq<Row>)
    requires n <= |drafts| == |generated|
  {
    |rows| == n && forall k :: 0 <= k < n ==> rows[k] == RowFor(drafts[k], generated[k], byName, ids)
  }

  lemma OneMoreRow(drafts: seq<Draft>, generated: seq<Id>, byName: map<Id, Id>, ids: set<Id>, n: nat, rows: seq<Row>)
    requires n < |drafts| == |generated| && RowsFor(drafts, generated, byName, ids, n, rows)
    ensures RowsFor(drafts, generated, byName, ids, n + 1, rows + [RowFor(drafts[n], generated[n], byName, ids)])
  {
  }

  /** The second pass: references become identifiers. */
  method ResolveRows(drafts: seq<Draft>, generated: seq<Id>, byName: map<Id, Id>, ids: set<Id>) returns (r: Result<seq<Row>, DraftError>)
    requires |generated| == |drafts| && Collected(drafts, generated, |drafts|, byName, ids)
    ensures r.Success? <==> ParentsNamed(drafts, generated)
    ensures r.Success? ==> RowsFor(drafts, generated, byName, ids, |drafts|, r.value)
  {
    var rows: seq<Row> := [];
    for i := 0 to |drafts|
      invariant RowsFor(drafts, generated, byName, ids, i, rows)
      invariant forall k :: 0 <= k < i ==> ParentNamed(drafts, generated, k)
    {
      var parent := drafts[i].parent;
      ParentIsNamed(drafts, generated, byName, ids, i);
      OneMoreRow(drafts, generated, byName, ids, i, rows);
      if Given(parent) && parent.value !in ids {
        if parent.value !in byName {
          return Failure(UnknownParent);
        }
        parent := Some(byName[parent.value]);
      }
      rows := rows + [Row(IdOf(drafts[i], generated[i]), parent)];
    }
    r := Success(rows);
  }

  /** Both passes: every task gets an identifier of its own, and every parent reference becomes one of them or stays blank. */
  method ResolveReferences(drafts: seq<Draft>, generated: seq<Id>) returns (r: Result<seq<Row>, DraftError>)
    requires Fresh(drafts, generated)
    ensures r.Success? <==> WellNamed(drafts, |drafts|) && ParentsNamed(drafts, generated)
    ensures r.Success? ==> DistinctRows(r.value) && ParentsKnown(r.value) && BLANK !in ParentMap(r.value)
    ensures r.Success? ==> |r.value| == |drafts| && forall i :: 0 <= i < |drafts| ==> RowResolves(drafts, generated, i, r.value[i])
  {
    var byName, ids := AssignIds(drafts, generated);
    if byName.Failure? {
      return Failure(byName.error);
    }
    r := ResolveRows(drafts, generated, byName.value, ids);
    if r.Success? {
      RowsAreWellFormed(drafts, generated, byName.value, ids, r.value);
    }
  }

  ghost predicate RowResolves(drafts: seq<Draft>, generated: seq<Id>, i: nat, row: Row)
    requires i < |drafts| == |generated|
  {
    row.id == IdOf(drafts[i], generated[i]) && ResolvesTo(drafts, generated, drafts[i].parent, row.parent)
  }

  lemma ParentIsNamed(drafts: seq<Draft>, generated: seq<Id>, byName: map<Id, Id>, ids: set<Id>, i: nat)
    requires i < |drafts| == |generated| && Collected(drafts, generated, |drafts|, byName, ids)
    ensures ParentNamed(drafts, generated, i) <==>
      (Given(drafts[i].parent) ==> drafts[i].parent.value in ids || drafts[i].parent.value in byName)
  {
  }

  lemma ParentResolves(drafts: seq<Draft>, generated: seq<Id>, byName: map<Id, Id>, ids: set<Id>, i: nat)
    requires i < |drafts| == |generated| && Collected(drafts, generated, |drafts|, byName, ids) && ParentNamed(drafts, generated, i)
    ensures ResolvesTo(drafts, generated, drafts[i].parent, RowFor(drafts[i], generated[i], byName, ids).parent)
    ensures Given(drafts[i].parent) ==> SomeId(drafts, generated, |drafts|, RowFor(drafts[i], generated[i], byName, ids).parent.value)
  {
    var reference := drafts[i].parent;
    ParentIsNamed(drafts, generated, byName, ids, i);
    if Given(reference) && reference.value !in ids {
      var k :| 0 <= k < |drafts| && drafts[k].name == reference.value;
      assert byName[reference.value] == IdOf(drafts[k], generated[k]);
    }
  }

  lemma {:induction false} RowsAreWellFormed(drafts: seq<Draft>, generated: seq<Id>, byName: map<Id, Id>, ids: set<Id>, rows: seq<Row>)
    requires Fresh(drafts, generated) && WellNamed(drafts, |drafts|) && ParentsNamed(drafts, generated)
    requires Collected(drafts, generated, |drafts|, byName, ids) && RowsFor(drafts, generated, byName, ids, |drafts|, rows)
    ensures DistinctRows(rows) && ParentsKnown(rows) && BLANK !in ParentMap(rows)
    ensures forall i :: 0 <= i < |drafts| ==> RowResolves(drafts, generated, i, rows[i])
  {
    forall i | 0 <= i < |drafts| ensures RowResolves(drafts, generated, i, rows[i]) {
      assert ParentNamed(drafts, generated, i);
      ParentResolves(drafts, generated, byName, ids, i);
    }
    RowsAreApart(drafts, generated, byName, ids, rows);
    ParentsAreRows(drafts, generated, byName, ids, rows);
    forall i | 0 <= i < |rows| ensures rows[i].id != BLANK {
      assert generated[i] in generated;
    }
    BlankIsNoKey(rows);
  }

  lemma RowsAreApart(drafts: seq<Draft>, generated: seq<Id>, byName: map<Id, Id>, ids: set<Id>, rows: seq<Row>)
    requires Fresh(drafts, generated) && WellNamed(drafts, |drafts|) && RowsFor(drafts, generated, byName, ids, |drafts|, rows)
    ensures DistinctRows(rows)
  {
    forall i, j | 0 <= i < j < |rows| ensures Apart(rows, i, j) {
      assert !Clash(drafts, i, j) && Differ(generated, i, j);
      assert generated[i] in generated && generated[j] in generated;
    }
  }

  lemma ParentsAreRows(drafts: seq<Draft>, generated: seq<Id>, byName: map<Id, Id>, ids: set<Id>, rows: seq<Row>)
    requires |generated| == |drafts| && ParentsNamed(drafts, generated) && DistinctRows(rows)
    requires Collected(drafts, generated, |drafts|, byName, ids) && RowsFor(drafts, generated, byName, ids, |drafts|, rows)
    ensures ParentsKnown(rows)
  {
    forall r | r in rows && r.parent.Some? && r.parent.value != BLANK ensures r.parent.value in ParentMap(rows) {
      var i :| 0 <= i < |rows| && rows[i] == r;
      assert ParentNamed(drafts, generated, i);
      ParentResolves(drafts, generated, byName, ids, i);
      var k :| 0 <= k < |drafts| && IdOf(drafts[k], generated[k]) == r.parent.value;
      IdIsKey(rows, k);
    }
  }

  lemma {:induction false} BlankIsNoKey(rows: seq<Row>)
    requires forall i :: 0 <= i < |rows| ==> rows[i].id != BLANK
    ensures BLANK !in ParentMap(rows)
  {
    if rows != [] {
      BlankIsNoKey(rows[..|rows| - 1]);
    }
  }

  // ----- Stamping ---------------------------------------------------------------------------

  /** The column after everything under the listed tasks, and the task itself, took the identifier. */
  ghost function Stamped(m: Parents, before: map<Id, Option<Id>>, id: Id, done: seq<Row>, treeId: Id): map<Id, Option<Id>> {
    map x | x in before :: if x == id || UnderSome(m, done, x) then Some(treeId) else before[x]
  }

  lemma StampedOneMore(m: Parents, before: map<Id, Option<Id>>, id: Id, children: seq<Row>, i: nat, treeId: Id)
    requires i < |children|
    ensures var midway := Stamped(m, before, id, children[..i], treeId);
      Stamped(m, before, id, children[..i + 1], treeId)
      == map x | x in midway :: if Under(m, children[i].id, x) then Some(treeId) else midway[x]
  {
    forall x ensures UnderSome(m, children[..i + 1], x) <==> UnderSome(m, children[..i], x) || Under(m, children[i].id, x) {
      assert children[..i + 1] == children[..i] + [children[i]];
    }
  }

  lemma {:induction false} StampedAll(rows: seq<Row>, before: map<Id, Option<Id>>, id: Id, treeId: Id)
    requires DistinctRows(rows) && id in ParentMap(rows) && before.Keys == ParentMap(rows).Keys
    ensures Stamped(ParentMap(rows), before, id, ChildRows(rows, Some(id)), treeId)
      == map x | x in before :: if Under(ParentMap(rows), id, x) then Some(treeId) else before[x]
  {
    forall x | x in before ensures Under(ParentMap(rows), id, x) <==> x == id || UnderSome(ParentMap(rows), ChildRows(rows, Some(id)), x) {
      CoveredByChildren(rows, id, x);
    }
  }

  class Stamper {
    var treeIds: map<Id, Option<Id>>   // the task_tree_id column

    /** The subtree of a task takes its tree's identifier. The climb to the root is what makes this end, cycles or not. */
    method Stamp(rows: seq<Row>, id: Id, treeId: Id, ghost climb: seq<Id>)
      requires DistinctRows(rows) && treeIds.Keys == ParentMap(rows).Keys && id in treeIds
      requires UpToRoot(ParentMap(rows), id, climb)
      modifies this
      ensures treeIds == map x | x in old(treeIds) :: if Under(ParentMap(rows), id, x) then Some(treeId) else old(treeIds)[x]
      decreases ParentMap(rows).Keys - (set c | c in climb)
    {
      ghost var m := ParentMap(rows);
      ghost var before := treeIds;
      treeIds := treeIds[id := Some(treeId)];
      var children := ChildRows(rows, Some(id));
      assert treeIds == Stamped(m, before, id, children[..0], treeId);
      for i := 0 to |children|
        invariant treeIds == Stamped(m, before, id, children[..i], treeId)
      {
        assert children[i] in children;
        ParentOfRow(rows, children[i]);
        ClimbGrows(m, id, climb, children[i].id);
        StampedOneMore(m, before, id, children, i, treeId);
        Stamp(rows, children[i].id, treeId, [children[i].id] + climb);
      }
      assert children[..|children|] == children;
      StampedAll(rows, before, id, treeId);
    }

    /** Step 3 of the conversion: every root stamps its tree, and no two roots may ask for the same identifier. */
    method StampRoots(rows: seq<Row>, wanted: map<Id, Option<Id>>) returns (ok: bool)
      requires DistinctRows(rows) && treeIds.Keys == ParentMap(rows).Keys
      modifies this
      ensures ok <==> DistinctTreeIds(ChildRows(rows, None), wanted)
      ensures ok ==> treeIds.Keys == ParentMap(rows).Keys
      ensures ok ==> StampedRoots(ParentMap(rows), ChildRows(rows, None), |ChildRows(rows, None)|, treeIds, wanted)
    {
      ghost var m := ParentMap(rows);
      var roots := ChildRows(rows, None);
      var used: set<Id> := {};
      RootsAreAntichain(rows);
      for i := 0 to |roots|
        invariant treeIds.Keys == m.Keys
        invariant used == TreeIdsOf(roots[..i], wanted)
        invariant DistinctTreeIds(roots[..i], wanted)
        invariant StampedRoots(m, roots, i, treeIds, wanted)
      {
        var root := roots[i];
        assert root in roots;
        ParentOfRow(rows, root);
        assert UpToRoot(m, root.id, [root.id]);
        var treeId := TreeIdFor(root, wanted);
        ghost var midway := treeIds;
        Stamp(rows, root.id, treeId, [root.id]);
        OneMoreTreeId(roots, wanted, i);
        if treeId in used {
          return false;
        }
        used := used + {treeId};
        StampedRootsGrow(m, roots, i, midway, treeIds, wanted);
      }
      assert roots[..|roots|] == roots;
      ok := true;
    }
  }

  /** root_task.get("task_tree_id") or root_task["id"]. */
  function TreeIdFor(root: Row, wanted: map<Id, Option<Id>>): Id {
    if root.id in wanted && Given(wanted[root.id]) then wanted[root.id].value else root.id
  }

  ghost predicate SameTreeId(list: seq<Row>, wanted: map<Id, Option<Id>>, i: int, j: int)
    requires 0 <= i < j < |list|
  {
    TreeIdFor(list[i], wanted) == TreeIdFor(list[j], wanted)
  }

  ghost predicate DistinctTreeIds(list: seq<Row>, wanted: map<Id, Option<Id>>) {
    forall i, j {:trigger SameTreeId(list, wanted, i, j)} :: 0 <= i < j < |list| ==> !SameTreeId(list, wanted, i, j)
  }

  function TreeIdsOf(list: seq<Row>, wanted: map<Id, Option<Id>>): set<Id> {
    set r | r in list :: TreeIdFor(r, wanted)
  }

  /** The next root's identifier was used before exactly when the roots so far and it are not distinct. */
  lemma OneMoreTreeId(list: seq<Row>, wanted: map<Id, Option<Id>>, n: nat)
    requires n < |list| && DistinctTreeIds(list[..n], wanted)
    ensures TreeIdsOf(list[..n + 1], wanted) == TreeIdsOf(list[..n], wanted) + {TreeIdFor(list[n], wanted)}
    ensures if TreeIdFor(list[n], wanted) in TreeIdsOf(list[..n], wanted) then !DistinctTreeIds(list, wanted)
            else DistinctTreeIds(list[..n + 1], wanted)
  {
    var done, more := list[..n], list[..n + 1];
    assert more == done + [list[n]];
    if TreeIdFor(list[n], wanted) in TreeIdsOf(done, wanted) {
      var r :| r in done && TreeIdFor(r, wanted) == TreeIdFor(list[n], wanted);
      var k :| 0 <= k < n && list[k] == r;
      assert SameTreeId(list, wanted, k, n);
    } else {
      forall i, j | 0 <= i < j < |more| ensures !SameTreeId(more, wanted, i, j) {
        assert j < n ==> !SameTreeId(done, wanted, i, j);
        assert list[i] in done || i >= n;
      }
    }
  }

  /** Everything under the first n roots carries the identifier of its root. */
  ghost predicate StampedRoots(m: Parents, roots: seq<Row>, n: nat, treeIds: map<Id, Option<Id>>, wanted: map<Id, Option<Id>>)
    requires n <= |roots|
  {
    forall k, x :: 0 <= k < n && x in treeIds && Under(m, roots[k].id, x) ==> treeIds[x] == Some(TreeIdFor(roots[k], wanted))
  }

  lemma StampedRootsGrow(m: Parents, roots: seq<Row>, n: nat, before: map<Id, Option<Id>>, after: map<Id, Option<Id>>, wanted: map<Id, Option<Id>>)
    requires n < |roots| && Antichain(m, roots) && StampedRoots(m, roots, n, before, wanted)
    requires after == map x | x in before :: if Under(m, roots[n].id, x) then Some(TreeIdFor(roots[n], wanted)) else before[x]
    ensures StampedRoots(m, roots, n + 1, after, wanted)
  {
    forall k, x | 0 <= k < n && x in after && Under(m, roots[k].id, x) ensures !Under(m, roots[n].id, x) {
      if Under(m, roots[n].id, x) {
        OneRootAbove(m, roots, k, n, x);
      }
    }
  }

  lemma OneRootAbove(m: Parents, roots: seq<Row>, i: nat, j: nat, x: Id)
    requires Antichain(m, roots) && i < |roots| && j < |roots| && Under(m, roots[i].id, x) && Under(m, roots[j].id, x)
    ensures i == j
  {
    var path :| Climbs(m, path, x, roots[i].id);
    AncestorsCompare(m, roots[i].id, roots[j].id, x, path);
    assert roots[i] in roots && roots[j] in roots;
    assert i < j ==> Apart(roots, i, j);
    assert j < i ==> Apart(roots, j, i);
  }

  /** When nothing hangs from a blank parent, tasks carry one tree identifier exactly when one root is above both. */
  lemma {:induction false} SharedTreeIdMeansSharedRoot(rows: seq<Row>, rank: map<Id, nat>, treeIds: map<Id, Option<Id>>, wanted: map<Id, Option<Id>>, x: Row, y: Row)
    requires DistinctRows(rows) && IsRank(ParentMap(rows), rank) && ParentsKnown(rows) && NoBlankParent(rows)
    requires treeIds.Keys == ParentMap(rows).Keys && x in rows && y in rows && DistinctTreeIds(ChildRows(rows, None), wanted)
    requires StampedRoots(ParentMap(rows), ChildRows(rows, None), |ChildRows(rows, None)|, treeIds, wanted)
    ensures x.id in treeIds && y.id in treeIds
    ensures treeIds[x.id] == treeIds[y.id] <==>
      exists r :: r in ChildRows(rows, None) && Under(ParentMap(rows), r.id, x.id) && Under(ParentMap(rows), r.id, y.id)
  {
    ParentOfRow(rows, x);
    ParentOfRow(rows, y);
    RootsAreAntichain(rows);
    var i := RootIndex(rows, rank, x);
    var j := RootIndex(rows, rank, y);
    SharedRootMeansSameIndex(ParentMap(rows), ChildRows(rows, None), i, j, x.id, y.id);
    SharedIdMeansSameIndex(ChildRows(rows, None), wanted, i, j);
  }

  /** Every task of a tree carries the identifier its root asks for, or else the root's own. */
  lemma {:induction false} TreesAreNamedByTheirRoots(rows: seq<Row>, treeIds: map<Id, Option<Id>>, wanted: map<Id, Option<Id>>, r: Row, x: Id)
    requires r in rows && r.parent.None? && x in treeIds && Under(ParentMap(rows), r.id, x) && r.id in wanted
    requires StampedRoots(ParentMap(rows), ChildRows(rows, None), |ChildRows(rows, None)|, treeIds, wanted)
    ensures treeIds[x] == if wanted[r.id] in {None, Some(BLANK)} then Some(r.id) else wanted[r.id]
  {
    assert r in ChildRows(rows, None);
    var k :| 0 <= k < |ChildRows(rows, None)| && ChildRows(rows, None)[k] == r;
    assert treeIds[x] == Some(TreeIdFor(ChildRows(rows, None)[k], wanted));
  }

  lemma SharedRootMeansSameIndex(m: Parents, roots: seq<Row>, i: nat, j: nat, x: Id, y: Id)
    requires Antichain(m, roots) && i < |roots| && j < |roots| && Under(m, roots[i].id, x) && Under(m, roots[j].id, y)
    ensures i == j <==> exists r :: r in roots && Under(m, r.id, x) && Under(m, r.id, y)
  {
    if i == j {
      assert roots[i] in roots;
    }
    if r :| r in roots && Under(m, r.id, x) && Under(m, r.id, y) {
      var k :| 0 <= k < |roots| && roots[k] == r;
      OneRootAbove(m, roots, i, k, x);
      OneRootAbove(m, roots, j, k, y);
    }
  }

  lemma SharedIdMeansSameIndex(roots: seq<Row>, wanted: map<Id, Option<Id>>, i: nat, j: nat)
    requires DistinctTreeIds(roots, wanted) && i < |roots| && j < |roots|
    ensures i == j <==> TreeIdFor(roots[i], wanted) == TreeIdFor(roots[j], wanted)
  {
    assert i < j ==> !SameTreeId(roots, wanted, i, j);
    assert j < i ==> !SameTreeId(roots, wanted, j, i);
  }

  lemma RootIndex(rows: seq<Row>, rank: map<Id, nat>, x: Row) returns (i: nat)
    requires DistinctRows(rows) && IsRank(ParentMap(rows), rank) && ParentsKnown(rows) && NoBlankParent(rows) && x in rows
    ensures i < |ChildRows(rows, None)| && Under(ParentMap(rows), ChildRows(rows, None)[i].id, x.id)
  {
    var top := TopOf(rows, rank, x);
    assert top in ChildRows(rows, None);
    i :| 0 <= i < |ChildRows(rows, None)| && ChildRows(rows, None)[i] == top;
  }

  /** The climb from a task to a root, visiting nothing twice. */
  ghost predicate UpToRoot(m: Parents, id: Id, climb: seq<Id>) {
    && IsClimb(m, climb) && climb[0] == id && (forall c :: c in climb ==> c in m) && m[climb[|climb| - 1]] == None
    && (forall i, j :: 0 <= i < j < |climb| ==> climb[i] != climb[j])
  }

  lemma ClimbGrows(m: Parents, id: Id, climb: seq<Id>, child: Id)
    requires UpToRoot(m, id, climb) && child in m && m[child] == Some(id)
    ensures UpToRoot(m, child, [child] + climb)
    ensures m.Keys - (set c | c in [child] + climb) < m.Keys - (set c | c in climb)
  {
    ClimbLonger(m, child, climb);
    forall j | 0 <= j < |climb| ensures climb[j] != child {
      assert j < |climb| - 1 ==> Hop(m, climb, j) && climb[j + 1] != climb[0];
    }
    assert child in m.Keys - (set c | c in climb);
  }

  lemma {:induction false} CoveredByChildren(rows: seq<Row>, id: Id, x: Id)
    requires DistinctRows(rows) && id in ParentMap(rows) && x in ParentMap(rows)
    ensures Under(ParentMap(rows), id, x) <==> x == id || UnderSome(ParentMap(rows), ChildRows(rows, Some(id)), x)
  {
    var m := ParentMap(rows);
    var children := ChildRows(rows, Some(id));
    UnderStep(m, id, x);
    if Under(m, id, x) && x != id {
      var c := UnderChild(m, id, x);
      var i := RowOf(rows, c);
      ParentMapAt(rows, i);
      assert rows[i] in children;
    }
    if c :| c in children && Under(m, c.id, x) {
      ParentOfRow(rows, c);
      UnderParent(m, id, c.id, x);
    }
  }
}
