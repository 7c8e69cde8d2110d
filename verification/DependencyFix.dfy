/** The in-place dependency fix of a cloned task, with the list.index and del it is built from. */
module DependencyFix {
  import opened Prelude

  /** A dependency is an identifier, or a dictionary that may hold one beside other keys. */
  datatype Dependency = Plain(id: Id) | Object(reference: Option<Id>, rest: string)

  function Reference(d: Dependency): Option<Id> {
    match d
    case Plain(id) => Some(id)
    case Object(reference, _) => reference
  }

  /** It names a task that was not cloned. */
  predicate Missing(d: Dependency, ids: map<Id, Id>) {
    Reference(d).Some? && Reference(d).value !in ids
  }

  function Renamed(d: Dependency, ids: map<Id, Id>): Dependency {
    if Reference(d).None? || Missing(d, ids) then d
    else
      match d
      case Plain(id) => Plain(ids[id])
      case Object(reference, rest) => Object(Some(ids[reference.value]), rest)
  }

  /** What the fix is for: the dependencies on cloned tasks, in order, under their new names. */
  function Remapped(deps: seq<Dependency>, ids: map<Id, Id>): seq<Dependency> {
    if deps == [] then []
    else (if Missing(deps[0], ids) then [] else [Renamed(deps[0], ids)]) + Remapped(deps[1..], ids)
  }

  /** New identifiers are fresh: none of them is a dependency already. */
  ghost predicate FreshNames(deps: seq<Dependency>, ids: map<Id, Id>) {
    forall d, id :: d in deps && id in ids ==> Reference(d) != Some(ids[id])
  }

  /** list.index: the first equal element. */
  function IndexOf(items: seq<Dependency>, d: Dependency): (i: nat)
    requires d in items
    ensures i < |items| && items[i] == d && d !in items[..i]
  {
    if items[0] == d then 0
    else
      assert d in items[1..];
      var i := IndexOf(items[1..], d);
      assert items[..i + 1] == [items[0]] + items[1..][..i];
      i + 1
  }

  // ----- The first loop: rename, and note what is missing ---------------------------------------

  /** The list once the first n positions were visited. */
  function Marked(deps: seq<Dependency>, ids: map<Id, Id>, n: nat): (marked: seq<Dependency>)
    requires n <= |deps|
    ensures |marked| == |deps|
    ensures forall k :: 0 <= k < |deps| ==> marked[k] == if k < n then Renamed(deps[k], ids) else deps[k]
  {
    seq(|deps|, k requires 0 <= k < |deps| => if k < n then Renamed(deps[k], ids) else deps[k])
  }

  /** For each missing position in [a, b), the first position that holds an equal dependency. */
  function Firsts(deps: seq<Dependency>, ids: map<Id, Id>, a: nat, b: nat): (firsts: seq<nat>)
    requires a <= b <= |deps|
    decreases b
  {
    if a == b then []
    else Firsts(deps, ids, a, b - 1) + (if Missing(deps[b - 1], ids) then [IndexOf(deps, deps[b - 1])] else [])
  }

  lemma {:induction false} IndexIsUnique(items: seq<Dependency>, d: Dependency, i: nat)
    requires i < |items| && items[i] == d && forall k :: 0 <= k < i ==> items[k] != d
    ensures d in items && IndexOf(items, d) == i
  {
    if i > 0 {
      assert items[0] != d;
      forall k | 0 <= k < i - 1 ensures items[1..][k] != d {
        assert items[1..][k] == items[k + 1];
      }
      IndexIsUnique(items[1..], d, i - 1);
    }
  }

  lemma {:induction false} MarkedIndex(deps: seq<Dependency>, ids: map<Id, Id>, n: nat)
    requires FreshNames(deps, ids) && n < |deps|
    ensures Marked(deps, ids, n)[n] == deps[n] && deps[n] in Marked(deps, ids, n)
    ensures Missing(deps[n], ids) ==> IndexOf(Marked(deps, ids, n), deps[n]) == IndexOf(deps, deps[n])
    ensures deps[n].Plain? && !Missing(deps[n], ids) ==> IndexOf(Marked(deps, ids, n), deps[n]) == n
  {
    var marked := Marked(deps, ids, n);
    var d := deps[n];
    assert marked[n] == d;
    forall k | 0 <= k < n && Reference(d).Some? ensures marked[k] == d <==> deps[k] == d && Missing(d, ids) {
      assert deps[k] in deps && d in deps;
    }
    if Missing(d, ids) {
      IndexIsFirst(deps, n);
      var j := IndexOf(deps, d);
      forall k | 0 <= k < j ensures marked[k] != d {
        assert deps[k] in deps[..j];
      }
      IndexIsUnique(marked, d, j);
    } else if d.Plain? {
      IndexIsUnique(marked, d, n);
    }
  }

  // ----- The second loop: delete, from the largest index down -----------------------------------

  function Min(a: nat, b: nat): nat {
    if a < b then a else b
  }

  /** What is left of items[k..] when index i is deleted times[i] times, largest index first. */
  function Rest(items: seq<Dependency>, times: multiset<nat>, k: nat): (rest: seq<Dependency>)
    requires k <= |items|
    decreases |items| - k
  {
    if k == |items| then []
    else
      var more := [items[k]] + Rest(items, times, k + 1);
      more[Min(times[k], |more|)..]
  }

  function Insert(x: nat, s: seq<nat>): seq<nat> {
    if s == [] || x >= s[0] then [x] + s else [s[0]] + Insert(x, s[1..])
  }

  /** sorted(..., reverse=True). */
  function SortedDown(s: seq<nat>): seq<nat> {
    if s == [] then [] else Insert(s[0], SortedDown(s[1..]))
  }

  ghost predicate Descending(s: seq<nat>) {
    s != [] ==> (forall y :: y in s[1..] ==> s[0] >= y) && Descending(s[1..])
  }

  ghost function AtLeast(s: seq<nat>, k: nat): nat {
    if s == [] then 0 else AtLeast(s[..|s| - 1], k) + (if s[|s| - 1] >= k then 1 else 0)
  }

  lemma {:induction false} AtLeastAppend(s: seq<nat>, t: seq<nat>, k: nat)
    ensures AtLeast(s + t, k) == AtLeast(s, k) + AtLeast(t, k)
  {
    if t == [] {
      assert s + t == s;
    } else {
      assert (s + t)[..|s + t| - 1] == s + t[..|t| - 1];
      AtLeastAppend(s, t[..|t| - 1], k);
    }
  }

  lemma {:induction false} InsertMembers(x: nat, s: seq<nat>)
    ensures multiset(Insert(x, s)) == multiset(s) + multiset{x}
    ensures forall y :: y in Insert(x, s) <==> y == x || y in s
  {
    if s != [] && x < s[0] {
      assert s == [s[0]] + s[1..];
      InsertMembers(x, s[1..]);
    }
  }

  lemma {:induction false} InsertSorts(x: nat, s: seq<nat>)
    requires Descending(s)
    ensures Descending(Insert(x, s))
  {
    if s == [] {
    } else if x >= s[0] {
      assert ([x] + s)[1..] == s;
      forall y | y in s ensures x >= y {
        assert y == s[0] || y in s[1..];
      }
    } else {
      InsertSorts(x, s[1..]);
      InsertMembers(x, s[1..]);
      assert ([s[0]] + Insert(x, s[1..]))[1..] == Insert(x, s[1..]);
    }
  }

  lemma {:induction false} AtLeastOne(x: nat, k: nat)
    ensures AtLeast([x], k) == if x >= k then 1 else 0
  {
    assert [x][..0] == [];
  }

  lemma {:induction false} InsertCounts(x: nat, s: seq<nat>, k: nat)
    ensures AtLeast(Insert(x, s), k) == AtLeast(s, k) + AtLeast([x], k)
  {
    if s == [] || x >= s[0] {
      AtLeastAppend([x], s, k);
    } else {
      InsertCounts(x, s[1..], k);
      assert s == [s[0]] + s[1..];
      AtLeastAppend([s[0]], s[1..], k);
      AtLeastAppend([s[0]], Insert(x, s[1..]), k);
    }
  }

  lemma {:induction false} SortSorts(s: seq<nat>, k: nat)
    ensures Descending(SortedDown(s)) && multiset(SortedDown(s)) == multiset(s) && AtLeast(SortedDown(s), k) == AtLeast(s, k)
  {
    if s != [] {
      SortSorts(s[1..], k);
      InsertSorts(s[0], SortedDown(s[1..]));
      InsertMembers(s[0], SortedDown(s[1..]));
      InsertCounts(s[0], SortedDown(s[1..]), k);
      assert s == [s[0]] + s[1..];
      AtLeastAppend([s[0]], s[1..], k);
    }
  }

  // ----- Counting ---------------------------------------------------------------------------

  /** Missing positions from k on. */
  function Lost(deps: seq<Dependency>, ids: map<Id, Id>, k: nat): (n: nat)
    requires k <= |deps|
    ensures n <= |deps| - k
    decreases |deps| - k
  {
    if k == |deps| then 0 else Lost(deps, ids, k + 1) + (if Missing(deps[k], ids) then 1 else 0)
  }

  /** Deletions at one index are the difference of two counts. */
  lemma {:induction false} CountAt(s: seq<nat>, k: nat)
    ensures AtLeast(s, k) == AtLeast(s, k + 1) + multiset(s)[k]
  {
    if s != [] {
      var init, last := s[..|s| - 1], s[|s| - 1];
      CountAt(init, k);
      assert s == init + [last];
      assert multiset(s) == multiset(init) + multiset{last};
    }
  }

  lemma {:induction false} AtLeastBound(s: seq<nat>, k: nat)
    ensures AtLeast(s, k) <= |s|
    ensures AtLeast(s, k) == |s| <==> AllFrom(s, k)
    ensures AtLeast(s, k) == 0 <==> AllBelow(s, k)
  {
    if s != [] {
      var init, last := s[..|s| - 1], s[|s| - 1];
      AtLeastBound(init, k);
      BoundsSplit(init, last, k);
      assert s == init + [last];
    }
  }

  lemma BoundsSplit(init: seq<nat>, last: nat, k: nat)
    ensures AllFrom(init + [last], k) <==> AllFrom(init, k) && last >= k
    ensures AllBelow(init + [last], k) <==> AllBelow(init, k) && last < k
  {
    assert last in init + [last] && forall x :: x in init ==> x in init + [last];
  }

  predicate AllFrom(s: seq<nat>, k: nat) {
    forall x :: x in s ==> x >= k
  }

  predicate AllBelow(s: seq<nat>, k: nat) {
    forall x :: x in s ==> x < k
  }

  lemma {:induction false} FirstsSplit(deps: seq<Dependency>, ids: map<Id, Id>, a: nat, m: nat, b: nat)
    requires a <= m <= b <= |deps|
    ensures Firsts(deps, ids, a, b) == Firsts(deps, ids, a, m) + Firsts(deps, ids, m, b)
    decreases b
  {
    if m < b {
      FirstsSplit(deps, ids, a, m, b - 1);
    }
  }

  /** The entries come from the missing positions of the range, and point no further than those. */
  lemma {:induction false} FirstsFrom(deps: seq<Dependency>, ids: map<Id, Id>, a: nat, b: nat)
    requires a <= b <= |deps|
    ensures forall x :: x in Firsts(deps, ids, a, b) <==>
      exists p :: a <= p < b && Missing(deps[p], ids) && IndexOf(deps, deps[p]) == x
    decreases b
  {
    if a < b {
      FirstsFrom(deps, ids, a, b - 1);
      var init, all := Firsts(deps, ids, a, b - 1), Firsts(deps, ids, a, b);
      forall x ensures x in all <==> x in init || (Missing(deps[b - 1], ids) && IndexOf(deps, deps[b - 1]) == x) {
      }
    }
  }

  lemma {:induction false} FirstsLength(deps: seq<Dependency>, ids: map<Id, Id>, a: nat)
    requires a <= |deps|
    ensures |Firsts(deps, ids, a, |deps|)| == Lost(deps, ids, a)
    decreases |deps| - a
  {
    if a < |deps| {
      FirstsLength(deps, ids, a + 1);
      FirstsSplit(deps, ids, a, a + 1, |deps|);
      assert Firsts(deps, ids, a, a) == [];
    }
  }

  /** The first occurrence is no later than any other. */
  lemma {:induction false} IndexIsFirst(deps: seq<Dependency>, p: nat)
    requires p < |deps|
    ensures deps[p] in deps && IndexOf(deps, deps[p]) <= p
  {
    var i := IndexOf(deps, deps[p]);
    assert forall k :: 0 <= k < i ==> deps[k] in deps[..i];
  }

  /** A missing dependency occurs again beyond k, where its first occurrence is before k. */
  ghost predicate Straddles(deps: seq<Dependency>, ids: map<Id, Id>, k: nat) {
    exists i, p :: 0 <= i < k <= p < |deps| && deps[i] == deps[p] && Missing(deps[p], ids)
  }

  /** From k on, deletions are as many as missing positions, unless a missing dependency straddles k: then they fall short. */
  lemma {:induction false} DeletionsFallShort(deps: seq<Dependency>, ids: map<Id, Id>, k: nat)
    requires k <= |deps|
    ensures var deletions := AtLeast(Firsts(deps, ids, 0, |deps|), k);
      deletions <= Lost(deps, ids, k) && (deletions == Lost(deps, ids, k) <==> !Straddles(deps, ids, k))
  {
    var n := |deps|;
    var early, late := Firsts(deps, ids, 0, k), Firsts(deps, ids, k, n);
    FirstsSplit(deps, ids, 0, k, n);
    AtLeastAppend(early, late, k);
    FirstsFrom(deps, ids, 0, k);
    forall x | x in early ensures x < k {
      var p :| 0 <= p < k && Missing(deps[p], ids) && IndexOf(deps, deps[p]) == x;
      IndexIsFirst(deps, p);
    }
    AtLeastBound(early, k);
    AtLeastBound(late, k);
    FirstsLength(deps, ids, k);
    FirstsFrom(deps, ids, k, n);
    if Straddles(deps, ids, k) {
      var i, p :| 0 <= i < k <= p < n && deps[i] == deps[p] && Missing(deps[p], ids);
      IndexIsFirst(deps, i);
      assert IndexOf(deps, deps[p]) in late;
    } else {
      forall x | x in late ensures x >= k {
        var p :| k <= p < n && Missing(deps[p], ids) && IndexOf(deps, deps[p]) == x;
        assert deps[x] == deps[p];
      }
    }
  }

  // ----- When the fix is right --------------------------------------------------------------

  /** The list after both loops. */
  function Fixed(deps: seq<Dependency>, ids: map<Id, Id>): seq<Dependency> {
    Rest(Marked(deps, ids, |deps|), multiset(Firsts(deps, ids, 0, |deps|)), 0)
  }

  /** Between two occurrences of one missing dependency, nothing survives. */
  ghost predicate NothingKeptBetween(deps: seq<Dependency>, ids: map<Id, Id>) {
    NothingKeptFrom(deps, ids, 0)
  }

  ghost predicate NothingKeptFrom(deps: seq<Dependency>, ids: map<Id, Id>, k: nat) {
    forall q {:trigger Straddles(deps, ids, q)} :: k <= q < |deps| && !Missing(deps[q], ids) ==> !Straddles(deps, ids, q)
  }

  /** Deletions at a position. */
  function Times(deps: seq<Dependency>, ids: map<Id, Id>): multiset<nat> {
    multiset(Firsts(deps, ids, 0, |deps|))
  }

  function RestOf(deps: seq<Dependency>, ids: map<Id, Id>, k: nat): seq<Dependency>
    requires k <= |deps|
  {
    Rest(Marked(deps, ids, |deps|), Times(deps, ids), k)
  }

  lemma NoDeletionOfKept(deps: seq<Dependency>, ids: map<Id, Id>, k: nat)
    requires k < |deps| && !Missing(deps[k], ids)
    ensures Times(deps, ids)[k] == 0
  {
    FirstsFrom(deps, ids, 0, |deps|);
    forall p | 0 <= p < |deps| && Missing(deps[p], ids) ensures IndexOf(deps, deps[p]) != k {
      assert deps[IndexOf(deps, deps[p])] == deps[p];
    }
    assert k !in Firsts(deps, ids, 0, |deps|);
  }

  /** How many elements are still to be deleted from what is left at k. */
  ghost function Owed(deps: seq<Dependency>, ids: map<Id, Id>, k: nat): nat
    requires k <= |deps|
  {
    var deletions := AtLeast(Firsts(deps, ids, 0, |deps|), k);
    if deletions <= Lost(deps, ids, k) then Lost(deps, ids, k) - deletions else 0
  }

  /** One position further left: what is owed grows by a missing element and shrinks by the deletions there. */
  lemma OwedStep(deps: seq<Dependency>, ids: map<Id, Id>, k: nat)
    requires k < |deps|
    ensures Times(deps, ids)[k] <= Owed(deps, ids, k + 1) + 1
    ensures Owed(deps, ids, k) == Owed(deps, ids, k + 1) + (if Missing(deps[k], ids) then 1 else 0) - Times(deps, ids)[k]
  {
    CountAt(Firsts(deps, ids, 0, |deps|), k);
    DeletionsFallShort(deps, ids, k);
    DeletionsFallShort(deps, ids, k + 1);
  }

  lemma CutThenSkip(x: Dependency, next: seq<Dependency>, cut: nat, owed: nat)
    requires cut <= owed + 1 && owed <= |next|
    ensures ([x] + next)[cut..][owed + 1 - cut..] == next[owed..]
  {
  }

  /** While nothing straddles a kept position, what is left is some missing elements before the right answer. */
  lemma {:induction false} LeftOver(deps: seq<Dependency>, ids: map<Id, Id>, k: nat)
    requires k <= |deps| && NothingKeptFrom(deps, ids, k)
    ensures Owed(deps, ids, k) <= |RestOf(deps, ids, k)|
    ensures RestOf(deps, ids, k)[Owed(deps, ids, k)..] == Remapped(deps[k..], ids)
    decreases |deps| - k
  {
    if k == |deps| {
      AtLeastPastEnd(deps, ids);
    } else {
      LeftOver(deps, ids, k + 1);
      OwedStep(deps, ids, k);
      var x, next := Marked(deps, ids, |deps|)[k], RestOf(deps, ids, k + 1);
      var cut, owed := Times(deps, ids)[k], Owed(deps, ids, k + 1);
      assert RestOf(deps, ids, k) == ([x] + next)[cut..];
      assert deps[k..][1..] == deps[k + 1..] && deps[k..][0] == deps[k];
      if Missing(deps[k], ids) {
        CutThenSkip(x, next, cut, owed);
      } else {
        NoDeletionOfKept(deps, ids, k);
        DeletionsFallShort(deps, ids, k);
        assert owed == 0 && Owed(deps, ids, k) == 0;
        assert ([x] + next)[cut..][0..] == [x] + next[0..];
      }
    }
  }

  lemma {:induction false} AtLeastPastEnd(deps: seq<Dependency>, ids: map<Id, Id>)
    ensures Owed(deps, ids, |deps|) == 0 && Lost(deps, ids, |deps|) == 0
  {
    DeletionsFallShort(deps, ids, |deps|);
  }

  lemma OwedAtStart(deps: seq<Dependency>, ids: map<Id, Id>)
    ensures Owed(deps, ids, 0) == 0
  {
    DeletionsFallShort(deps, ids, 0);
    assert !Straddles(deps, ids, 0);
  }

  /** The condition suffices. */
  lemma {:induction false} FixIsRight(deps: seq<Dependency>, ids: map<Id, Id>)
    requires NothingKeptBetween(deps, ids)
    ensures Fixed(deps, ids) == Remapped(deps, ids)
  {
    LeftOver(deps, ids, 0);
    OwedAtStart(deps, ids);
    assert deps[0..] == deps;
  }

  // ----- And it is necessary ----------------------------------------------------------------

  /** Neither an old name that was cloned nor a new one: an element the fix should have removed. */
  predicate Bad(d: Dependency, ids: map<Id, Id>) {
    Reference(d).Some? && Reference(d).value !in ids && Reference(d).value !in ids.Values
  }

  function Good(s: seq<Dependency>, ids: map<Id, Id>): (n: nat)
    ensures n <= |s|
  {
    if s == [] then 0 else (if Bad(s[0], ids) then 0 else 1) + Good(s[1..], ids)
  }

  lemma {:induction false} GoodAppend(s: seq<Dependency>, t: seq<Dependency>, ids: map<Id, Id>)
    ensures Good(s + t, ids) == Good(s, ids) + Good(t, ids)
  {
    if s == [] {
      assert s + t == t;
    } else {
      assert (s + t)[1..] == s[1..] + t;
      GoodAppend(s[1..], t, ids);
    }
  }

  lemma {:induction false} GoodDrop(s: seq<Dependency>, n: nat, ids: map<Id, Id>)
    requires n <= |s|
    ensures Good(s[n..], ids) <= Good(s, ids)
    ensures Good(s, ids) == |s| ==> Good(s[n..], ids) == |s| - n
  {
    assert s == s[..n] + s[n..];
    GoodAppend(s[..n], s[n..], ids);
  }

  lemma MarkedIsGood(deps: seq<Dependency>, ids: map<Id, Id>, k: nat)
    requires FreshNames(deps, ids) && k < |deps|
    ensures Bad(Marked(deps, ids, |deps|)[k], ids) <==> Missing(deps[k], ids)
  {
    assert deps[k] in deps;
  }

  function Kept(deps: seq<Dependency>, ids: map<Id, Id>, k: nat): nat
    requires k <= |deps|
  {
    |deps| - k - Lost(deps, ids, k)
  }

  /** No more survivors than there should be, and no fewer elements than deletions allow. */
  lemma {:induction false} RestBounds(deps: seq<Dependency>, ids: map<Id, Id>, k: nat)
    requires FreshNames(deps, ids) && k <= |deps|
    ensures Good(RestOf(deps, ids, k), ids) <= Kept(deps, ids, k)
    ensures |RestOf(deps, ids, k)| >= Kept(deps, ids, k) + Owed(deps, ids, k)
    decreases |deps| - k
  {
    if k == |deps| {
      AtLeastPastEnd(deps, ids);
    } else {
      RestBounds(deps, ids, k + 1);
      OwedStep(deps, ids, k);
      MarkedIsGood(deps, ids, k);
      var marked := Marked(deps, ids, |deps|);
      var more := [marked[k]] + RestOf(deps, ids, k + 1);
      var cut := Min(Times(deps, ids)[k], |more|);
      assert more[1..] == RestOf(deps, ids, k + 1);
      assert RestOf(deps, ids, k) == more[cut..];
      GoodDrop(more, cut, ids);
    }
  }

  ghost predicate EndsWith(s: seq<Dependency>, t: seq<Dependency>) {
    |t| <= |s| && s[|s| - |t|..] == t
  }

  lemma SuffixAfterCut(x: Dependency, next: seq<Dependency>, tail: seq<Dependency>, cut: nat)
    requires EndsWith(next, tail) && cut <= 1 + |next|
    ensures 1 + |next| - cut >= |tail| ==> EndsWith(([x] + next)[cut..], tail)
    ensures 1 + |next| - cut < |tail| ==> ([x] + next)[cut..] == tail[1..][|tail| - (1 + |next| - cut) - 1..]
  {
    var more := [x] + next;
    if |more| - cut >= |tail| {
      assert more[cut..][|more| - cut - |tail|..] == next[|next| - |tail|..];
    } else {
      var d := |tail| - (|more| - cut);
      assert more[cut..] == next[|next| - |tail|..][d..];
    }
  }

  /** If every survivor is still there, the part from a kept position on was not touched by later deletions. */
  lemma {:induction false} Untouched(deps: seq<Dependency>, ids: map<Id, Id>, k: nat, q: nat)
    requires FreshNames(deps, ids) && k <= q < |deps| && !Missing(deps[q], ids)
    requires Good(RestOf(deps, ids, k), ids) == Kept(deps, ids, k)
    ensures EndsWith(RestOf(deps, ids, k), RestOf(deps, ids, q))
    decreases q - k
  {
    if k < q {
      NoDeficit(deps, ids, k);
      Untouched(deps, ids, k + 1, q);
      StillEndsWith(deps, ids, k, q, RestOf(deps, ids, k + 1), RestOf(deps, ids, q));
    }
  }

  /** One more position, with its cuts, in front of a list that ends with the tail. */
  lemma {:induction false} StillEndsWith(deps: seq<Dependency>, ids: map<Id, Id>, k: nat, q: nat, next: seq<Dependency>, tail: seq<Dependency>)
    requires FreshNames(deps, ids) && k < q < |deps| && !Missing(deps[q], ids)
    requires Good(RestOf(deps, ids, k), ids) == Kept(deps, ids, k)
    requires next == RestOf(deps, ids, k + 1) && tail == RestOf(deps, ids, q) && EndsWith(next, tail)
    ensures EndsWith(RestOf(deps, ids, k), tail)
  {
    var x := Marked(deps, ids, |deps|)[k];
    var cut := Min(Times(deps, ids)[k], 1 + |next|);
    assert RestOf(deps, ids, k) == ([x] + next)[cut..];
    SuffixAfterCut(x, next, tail, cut);
    if 1 + |next| - cut < |tail| {
      CutBelow(deps, ids, k, q, |tail| - (1 + |next| - cut) - 1);
    }
  }

  lemma {:induction false} CutBelow(deps: seq<Dependency>, ids: map<Id, Id>, k: nat, q: nat, d: nat)
    requires FreshNames(deps, ids) && k <= q < |deps| && !Missing(deps[q], ids) && d < |RestOf(deps, ids, q)|
    ensures Good(RestOf(deps, ids, q)[1..][d..], ids) < Kept(deps, ids, k)
  {
    CutKept(deps, ids, q, d);
    FewerKept(deps, ids, k, q);
  }

  /** Survivors lost at some point stay lost. */
  lemma {:induction false} NoDeficit(deps: seq<Dependency>, ids: map<Id, Id>, k: nat)
    requires FreshNames(deps, ids) && k < |deps| && Good(RestOf(deps, ids, k), ids) == Kept(deps, ids, k)
    ensures Good(RestOf(deps, ids, k + 1), ids) == Kept(deps, ids, k + 1)
  {
    var more := [Marked(deps, ids, |deps|)[k]] + RestOf(deps, ids, k + 1);
    var cut := Min(Times(deps, ids)[k], |more|);
    assert RestOf(deps, ids, k) == more[cut..] && more[1..] == RestOf(deps, ids, k + 1);
    MarkedIsGood(deps, ids, k);
    GoodDrop(more, cut, ids);
    RestBounds(deps, ids, k + 1);
  }

  /** Cutting into what is left at a kept position loses a survivor. */
  lemma {:induction false} CutKept(deps: seq<Dependency>, ids: map<Id, Id>, q: nat, d: nat)
    requires FreshNames(deps, ids) && q < |deps| && !Missing(deps[q], ids) && d < |RestOf(deps, ids, q)|
    ensures Good(RestOf(deps, ids, q)[1..][d..], ids) < Kept(deps, ids, q)
  {
    KeptHead(deps, ids, q);
    RestBounds(deps, ids, q);
    GoodDrop(RestOf(deps, ids, q)[1..], d, ids);
  }

  /** What is left at a kept position begins with its element. */
  lemma {:induction false} KeptHead(deps: seq<Dependency>, ids: map<Id, Id>, q: nat)
    requires FreshNames(deps, ids) && q < |deps| && !Missing(deps[q], ids)
    ensures RestOf(deps, ids, q) != [] && Good(RestOf(deps, ids, q), ids) == 1 + Good(RestOf(deps, ids, q)[1..], ids)
  {
    NoDeletionOfKept(deps, ids, q);
    MarkedIsGood(deps, ids, q);
    var more := [Marked(deps, ids, |deps|)[q]] + RestOf(deps, ids, q + 1);
    assert RestOf(deps, ids, q) == more[0..] == more;
  }

  lemma {:induction false} FewerKept(deps: seq<Dependency>, ids: map<Id, Id>, k: nat, q: nat)
    requires k <= q <= |deps|
    ensures Kept(deps, ids, q) <= Kept(deps, ids, k)
    decreases q - k
  {
    if k < q {
      FewerKept(deps, ids, k + 1, q);
    }
  }

  lemma {:induction false} RemappedIsGood(deps: seq<Dependency>, ids: map<Id, Id>)
    requires FreshNames(deps, ids)
    ensures Good(Remapped(deps, ids), ids) == |Remapped(deps, ids)| == Kept(deps, ids, 0)
  {
    if deps != [] {
      RemappedIsGood(deps[1..], ids);
      assert deps[0] in deps;
      LostTail(deps, ids, 1);
      var head := if Missing(deps[0], ids) then [] else [Renamed(deps[0], ids)];
      GoodAppend(head, Remapped(deps[1..], ids), ids);
    }
  }

  lemma {:induction false} LostTail(deps: seq<Dependency>, ids: map<Id, Id>, k: nat)
    requires 1 <= k <= |deps|
    ensures Lost(deps, ids, k) == Lost(deps[1..], ids, k - 1)
    decreases |deps| - k
  {
    if k < |deps| {
      LostTail(deps, ids, k + 1);
      assert deps[k] == deps[1..][k - 1];
    }
  }

  /** If the fix is right, what is left at a kept position is all survivors, and nothing is owed there. */
  lemma {:induction false} RightMeansNothingOwed(deps: seq<Dependency>, ids: map<Id, Id>, q: nat)
    requires FreshNames(deps, ids) && Fixed(deps, ids) == Remapped(deps, ids)
    requires q < |deps| && !Missing(deps[q], ids)
    ensures Owed(deps, ids, q) == 0
  {
    var fixed, tail := Fixed(deps, ids), RestOf(deps, ids, q);
    RemappedIsGood(deps, ids);
    Untouched(deps, ids, 0, q);
    GoodDrop(fixed, |fixed| - |tail|, ids);
    assert Good(tail, ids) == |tail|;
    RestBounds(deps, ids, q);
  }

  /**
   * The fix computes the dependencies on cloned tasks, in order and renamed, exactly when nothing that is kept
   * stands between two occurrences of one missing dependency; in particular for distinct dependencies.
   */
  lemma {:induction false} FixIsRightExactly(deps: seq<Dependency>, ids: map<Id, Id>)
    requires FreshNames(deps, ids)
    ensures Fixed(deps, ids) == Remapped(deps, ids) <==> NothingKeptBetween(deps, ids)
  {
    if NothingKeptBetween(deps, ids) {
      FixIsRight(deps, ids);
    } else {
      var q :| 0 <= q < |deps| && !Missing(deps[q], ids) && Straddles(deps, ids, q);
      StraddlingOwes(deps, ids, q);
      if Fixed(deps, ids) == Remapped(deps, ids) {
        RightMeansNothingOwed(deps, ids, q);
      }
    }
  }

  lemma StraddlingOwes(deps: seq<Dependency>, ids: map<Id, Id>, q: nat)
    requires q <= |deps| && Straddles(deps, ids, q)
    ensures Owed(deps, ids, q) > 0
  {
    DeletionsFallShort(deps, ids, q);
  }

  /** Distinct dependencies meet the condition. */
  lemma DistinctIsEnough(deps: seq<Dependency>, ids: map<Id, Id>)
    requires forall i, j :: 0 <= i < j < |deps| ==> deps[i] != deps[j]
    ensures NothingKeptBetween(deps, ids)
  {
  }

  /** A kept dependency between two equal missing ones: it is deleted in place of the second, which stays. */
  lemma RepeatedMissingIsKept(x: Id, b: Id, renamed: Id)
    requires x != b && renamed != x && renamed != b
    ensures FreshNames([Plain(x), Plain(b), Plain(x)], map[b := renamed])
    ensures Remapped([Plain(x), Plain(b), Plain(x)], map[b := renamed]) == [Plain(renamed)]
    ensures Fixed([Plain(x), Plain(b), Plain(x)], map[b := renamed]) == [Plain(x)]
  {
    var deps, ids := [Plain(x), Plain(b), Plain(x)], map[b := renamed];
    assert Firsts(deps, ids, 0, 1) == [0] && Firsts(deps, ids, 0, 2) == [0];
    assert Firsts(deps, ids, 0, 3) == [0, 0];
    var times: multiset<nat> := multiset([0, 0]);
    assert times[0] == 2 && times[1] == 0 && times[2] == 0;
    var items := Marked(deps, ids, 3);
    RestEnds(items, times, 2);
    RestKeeps(items, times, 1);
    DeleteTwice(items, times, 0, items[1], items[2]);
    assert items[2] == Plain(x);
    RemappedPair(x, b, renamed);
    assert deps[1..] == [Plain(b), Plain(x)];
  }

  lemma RemappedPair(x: Id, b: Id, renamed: Id)
    requires x != b
    ensures Remapped([Plain(b), Plain(x)], map[b := renamed]) == [Plain(renamed)]
  {
    var pair, ids := [Plain(b), Plain(x)], map[b := renamed];
    assert pair[1..] == [Plain(x)] && [Plain(x)][1..] == [];
    assert Remapped([Plain(x)], ids) == [];
  }

  lemma {:induction false} RestKeeps(items: seq<Dependency>, times: multiset<nat>, k: nat)
    requires k < |items| && times[k] == 0
    ensures Rest(items, times, k) == [items[k]] + Rest(items, times, k + 1)
  {
    var more := [items[k]] + Rest(items, times, k + 1);
    assert more[0..] == more;
  }

  lemma {:induction false} RestEnds(items: seq<Dependency>, times: multiset<nat>, k: nat)
    requires k + 1 == |items| && times[k] == 0
    ensures Rest(items, times, k) == [items[k]]
  {
    RestKeeps(items, times, k);
    assert Rest(items, times, k + 1) == [];
  }

  /** Deleting twice at k takes the item there and the one behind it. */
  lemma {:induction false} DeleteTwice(items: seq<Dependency>, times: multiset<nat>, k: nat, next: Dependency, last: Dependency)
    requires k < |items| && times[k] == 2 && Rest(items, times, k + 1) == [next] + [last]
    ensures Rest(items, times, k) == [last]
  {
    assert ([items[k]] + ([next] + [last]))[2..] == [last];
  }

  // ----- The loops --------------------------------------------------------------------------

  lemma {:induction false} RestAbove(items: seq<Dependency>, times: multiset<nat>, more: multiset<nat>, k: nat)
    requires k <= |items| && forall x: nat :: x >= k ==> times[x] == more[x]
    ensures Rest(items, times, k) == Rest(items, more, k)
    decreases |items| - k
  {
    if k < |items| {
      RestAbove(items, times, more, k + 1);
    }
  }

  lemma {:induction false} RestBelow(items: seq<Dependency>, times: multiset<nat>, k: nat, i: nat)
    requires k <= i <= |items| && forall x: nat :: x < i ==> times[x] == 0
    ensures Rest(items, times, k) == items[k..i] + Rest(items, times, i)
    decreases i - k
  {
    if k < i {
      RestBelow(items, times, k + 1, i);
      assert items[k..i] == [items[k]] + items[k + 1..i];
      assert ([items[k]] + Rest(items, times, k + 1))[0..] == [items[k]] + Rest(items, times, k + 1);
    }
  }

  lemma {:induction false} RestLength(items: seq<Dependency>, s: seq<nat>, k: nat)
    requires k <= |items|
    ensures |Rest(items, multiset(s), k)| >= |items| - k - AtLeast(s, k)
    decreases |items| - k
  {
    if k < |items| {
      RestLength(items, s, k + 1);
      CountAt(s, k);
    }
  }

  lemma {:induction false} DescendingPrefix(s: seq<nat>, j: nat)
    requires Descending(s) && j < |s|
    ensures AllFrom(s[..j + 1], s[j])
  {
    if j > 0 {
      DescendingPrefix(s[1..], j - 1);
      assert s[1..][j - 1] == s[j] && s[j] in s[1..];
      var prefix := s[..j + 1];
      forall x | x in prefix ensures x >= s[j] {
        assert prefix == [s[0]] + s[1..][..j];
      }
    }
  }

  /** One more deletion at i shortens what is left there from the front. */
  lemma {:induction false} DeleteAt(items: seq<Dependency>, times: multiset<nat>, more: multiset<nat>, i: nat)
    requires i < |items| && Rest(items, times, i) != []
    requires more[i] == times[i] + 1 && forall x: nat :: x > i ==> times[x] == more[x]
    ensures Rest(items, more, i) == Rest(items, times, i)[1..]
  {
    RestAbove(items, times, more, i + 1);
    var tail := [items[i]] + Rest(items, times, i + 1);
    assert Rest(items, times, i) == tail[Min(times[i], |tail|)..];
    assert tail[times[i]..][1..] == tail[times[i] + 1..];
  }

  /** Deleting the next index of the descending order. */
  lemma {:induction false} DeleteNext(items: seq<Dependency>, order: seq<nat>, j: nat)
    requires Descending(order) && j < |order| && order[j] <= |items| && AtLeast(order, order[j]) <= |items| - order[j]
    ensures var before := Rest(items, multiset(order[..j]), 0);
      && order[j] < |before|
      && before[..order[j]] + before[order[j] + 1..] == Rest(items, multiset(order[..j + 1]), 0)
  {
    var i: nat, done, more := order[j], order[..j], order[..j + 1];
    var times: multiset<nat>, next: multiset<nat> := multiset(done), multiset(more);
    DescendingPrefix(order, j);
    PrefixCounts(order, j);
    RestLength(items, done, i);
    OnlyAbove(done, i);
    OnlyAbove(more, i);
    RestBelow(items, times, 0, i);
    RestBelow(items, next, 0, i);
    DeleteAt(items, times, next, i);
    var left := Rest(items, times, i);
    assert (items[0..i] + left)[..i] == items[0..i];
    assert (items[0..i] + left)[i + 1..] == left[1..];
  }

  lemma {:induction false} PrefixCounts(order: seq<nat>, j: nat)
    requires j < |order| && AllFrom(order[..j + 1], order[j])
    ensures AllFrom(order[..j], order[j]) && AtLeast(order[..j], order[j]) < AtLeast(order, order[j])
    ensures var times: multiset<nat>, next: multiset<nat> := multiset(order[..j]), multiset(order[..j + 1]);
      next[order[j]] == times[order[j]] + 1 && forall x: nat :: x > order[j] ==> times[x] == next[x]
  {
    var i: nat, done, more := order[j], order[..j], order[..j + 1];
    assert order == more + order[j + 1..] && more == done + [i];
    AtLeastAppend(more, order[j + 1..], i);
    AtLeastAppend(done, [i], i);
    AtLeastOne(i, i);
    forall x | x in done ensures x >= i {
      assert x in more;
    }
  }

  lemma OnlyAbove(s: seq<nat>, i: nat)
    requires AllFrom(s, i)
    ensures forall x: nat {:trigger multiset(s)[x]} :: x < i ==> multiset(s)[x] == 0
  {
    var times: multiset<nat> := multiset(s);
    forall x: nat | x < i ensures times[x] == 0 {
      assert x !in s;
    }
  }

  class DependencyList {
    var items: seq<Dependency>

    constructor (items: seq<Dependency>)
      ensures this.items == items
    {
      this.items := items;
    }

    /** _fix_dependencies_recursive on one task's list, edited in place. */
    method Fix(ids: map<Id, Id>)
      requires FreshNames(items, ids)
      modifies this
      ensures items == Fixed(old(items), ids)
    {
      ghost var deps := items;
      var missing: seq<nat> := [];
      for p := 0 to |items|
        invariant |items| == |deps| && items == Marked(deps, ids, p) && missing == Firsts(deps, ids, 0, p)
      {
        var d := items[p];
        MarkedIndex(deps, ids, p);
        if Missing(d, ids) {
          missing := missing + [IndexOf(items, d)];
        } else {
          match d
          case Plain(id) =>
            items := items[IndexOf(items, d) := Plain(ids[id])];
          case Object(reference, rest) =>
            if reference.Some? {
              items := items[p := Object(Some(ids[reference.value]), rest)];
            }
        }
        assert items == Marked(deps, ids, p + 1);
      }
      var order := SortedDown(missing);
      ghost var marked := items;
      assert Rest(marked, multiset{}, 0) == marked by {
        RestBelow(marked, multiset{}, 0, |marked|);
      }
      for j := 0 to |order|
        invariant items == Rest(marked, multiset(order[..j]), 0)
      {
        OrderIsCovered(deps, ids, order, j);
        DeleteNext(marked, order, j);
        items := items[..order[j]] + items[order[j] + 1..];
      }
      assert order[..|order|] == order;
      SortSorts(missing, 0);
    }
  }

  lemma {:induction false} OrderIsCovered(deps: seq<Dependency>, ids: map<Id, Id>, order: seq<nat>, j: nat)
    requires order == SortedDown(Firsts(deps, ids, 0, |deps|)) && j < |order|
    ensures Descending(order) && order[j] <= |deps| && AtLeast(order, order[j]) <= |deps| - order[j]
  {
    var firsts := Firsts(deps, ids, 0, |deps|);
    SortSorts(firsts, order[j]);
    assert order[j] in multiset(order);
    FirstsFrom(deps, ids, 0, |deps|);
    assert order[j] in firsts;
    DeletionsFallShort(deps, ids, order[j]);
  }
}
